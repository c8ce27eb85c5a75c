/**
 What the v0.1 migration puts into the catalog: which checkout every node works in afterwards, and what the
 catalog records about it.
 */
module CatalogContents {
  import opened Wrappers
  import opened Text
  import opened Ordered
  import opened GraphModel
  import opened CatalogMigration
  import opened CatalogTopology
  import opened CatalogTheorems

  // ---- First owners ----

  predicate WorktreeAt(ns: seq<NodeValue>, i: int)
    requires AllNamed(ns)
  {
    0 <= i < |ns| && InWorktree(ns[i])
  }

  /** The first worktree node from `k` on with the same origin as node `i`. */
  function FirstOwner(ns: seq<NodeValue>, i: nat, k: nat): (p: nat)
    requires AllNamed(ns) && WorktreeAt(ns, i) && k <= i
    ensures k <= p <= i && InWorktree(ns[p]) && NodeOrigin(ns[p]) == NodeOrigin(ns[i])
    ensures forall q :: k <= q < p && InWorktree(ns[q]) ==> NodeOrigin(ns[q]) != NodeOrigin(ns[i])
    decreases i - k
  {
    if k == i || (InWorktree(ns[k]) && NodeOrigin(ns[k]) == NodeOrigin(ns[i])) then k else FirstOwner(ns, i, k + 1)
  }

  lemma {:induction false} SameOwner(ns: seq<NodeValue>, i: nat, k: nat)
    requires AllNamed(ns) && WorktreeAt(ns, i) && WorktreeAt(ns, k) && NodeOrigin(ns[i]) == NodeOrigin(ns[k])
    ensures FirstOwner(ns, i, 0) == FirstOwner(ns, k, 0)
  {
    var p, q := FirstOwner(ns, i, 0), FirstOwner(ns, k, 0);
    assert p < q || p == q || q < p;
  }

  ghost predicate FiledUpTo(ctx: Ctx, ns: seq<NodeValue>, d: map<string, Descriptor>, k: nat)
    requires AllNamed(ns)
  {
    && (forall i :: i < k && WorktreeAt(ns, i) ==> FiledFor(ctx, ns, d, i))
    && (forall key :: key in d ==> FiledKey(ctx, ns, k, key))
  }

  ghost predicate FiledKey(ctx: Ctx, ns: seq<NodeValue>, k: nat, key: string)
    requires AllNamed(ns)
  {
    exists i :: i < k && WorktreeAt(ns, i) && key == IdOf(ctx, NodeOrigin(ns[i]))
  }

  ghost predicate FiledFor(ctx: Ctx, ns: seq<NodeValue>, d: map<string, Descriptor>, i: int)
    requires AllNamed(ns) && WorktreeAt(ns, i)
  {
    var key := IdOf(ctx, NodeOrigin(ns[i]));
    key in d && d[key] == InitialDescriptor(ctx, ns[FirstOwner(ns, i, 0)])
  }

  /** The step enters the node's own descriptor if none is there yet. */
  lemma {:induction false} DescriptorStep(ctx: Ctx, t: Tables, n: NodeValue)
    requires Named(n)
    ensures NodeStep(ctx, t, n).descriptors ==
      if !InWorktree(n) || IdOf(ctx, NodeOrigin(n)) in t.descriptors then t.descriptors
      else t.descriptors[IdOf(ctx, NodeOrigin(n)) := InitialDescriptor(ctx, n)]
  {
  }

  lemma {:induction false} FiledStep(
    ctx: Ctx, ns: seq<NodeValue>, gs: seq<GroupValue>, d: map<string, Descriptor>, d': map<string, Descriptor>, k: nat)
    requires AllNamed(ns) && AllReadable(gs) && CollisionFree(ctx, ns, gs)
    requires k < |ns| && FiledUpTo(ctx, ns, d, k)
    requires d' == if !InWorktree(ns[k]) || IdOf(ctx, NodeOrigin(ns[k])) in d then d
                   else d[IdOf(ctx, NodeOrigin(ns[k])) := InitialDescriptor(ctx, ns[k])]
    ensures FiledUpTo(ctx, ns, d', k + 1)
  {
    if InWorktree(ns[k]) {
      FiledHere(ctx, ns, gs, d, d', k);
    }
    FiledGrows(ctx, ns, d, d', k);
  }

  lemma {:induction false} FiledGrows(ctx: Ctx, ns: seq<NodeValue>, d: map<string, Descriptor>, d': map<string, Descriptor>, k: nat)
    requires AllNamed(ns) && k < |ns| && FiledUpTo(ctx, ns, d, k)
    requires forall key :: key in d ==> key in d' && d'[key] == d[key]
    requires forall key :: key in d' && key !in d ==> WorktreeAt(ns, k) && key == IdOf(ctx, NodeOrigin(ns[k]))
    requires WorktreeAt(ns, k) ==> FiledFor(ctx, ns, d', k)
    ensures FiledUpTo(ctx, ns, d', k + 1)
  {
    FiledNodesGrow(ctx, ns, d, d', k);
    FiledKeysGrow(ctx, ns, d, d', k);
  }

  lemma {:induction false} FiledNodesGrow(ctx: Ctx, ns: seq<NodeValue>, d: map<string, Descriptor>, d': map<string, Descriptor>, k: nat)
    requires AllNamed(ns) && k < |ns| && forall i :: i < k && WorktreeAt(ns, i) ==> FiledFor(ctx, ns, d, i)
    requires forall key :: key in d ==> key in d' && d'[key] == d[key]
    requires WorktreeAt(ns, k) ==> FiledFor(ctx, ns, d', k)
    ensures forall i :: i < k + 1 && WorktreeAt(ns, i) ==> FiledFor(ctx, ns, d', i)
  {
    forall i | i < k + 1 && WorktreeAt(ns, i) ensures FiledFor(ctx, ns, d', i) {
      if i < k {
        FiledForStays(ctx, ns, d, d', i);
      }
    }
  }

  lemma {:induction false} FiledKeysGrow(ctx: Ctx, ns: seq<NodeValue>, d: map<string, Descriptor>, d': map<string, Descriptor>, k: nat)
    requires AllNamed(ns) && k < |ns| && forall key :: key in d ==> FiledKey(ctx, ns, k, key)
    requires forall key :: key in d' && key !in d ==> WorktreeAt(ns, k) && key == IdOf(ctx, NodeOrigin(ns[k]))
    ensures forall key :: key in d' ==> FiledKey(ctx, ns, k + 1, key)
  {
    forall key | key in d' ensures FiledKey(ctx, ns, k + 1, key) {
      if key in d {
        FiledKeyStays(ctx, ns, k, key);
      } else {
        NewKeyFiled(ctx, ns, k, key);
      }
    }
  }

  lemma {:induction false} NewKeyFiled(ctx: Ctx, ns: seq<NodeValue>, k: nat, key: string)
    requires AllNamed(ns) && WorktreeAt(ns, k) && key == IdOf(ctx, NodeOrigin(ns[k]))
    ensures FiledKey(ctx, ns, k + 1, key)
  {
    assert k < k + 1;
  }

  lemma {:induction false} FiledForStays(
    ctx: Ctx, ns: seq<NodeValue>, d: map<string, Descriptor>, d': map<string, Descriptor>, i: int)
    requires AllNamed(ns) && WorktreeAt(ns, i) && FiledFor(ctx, ns, d, i)
    requires forall key :: key in d ==> key in d' && d'[key] == d[key]
    ensures FiledFor(ctx, ns, d', i)
  {
  }

  lemma {:induction false} FiledKeyStays(ctx: Ctx, ns: seq<NodeValue>, k: nat, key: string)
    requires AllNamed(ns) && FiledKey(ctx, ns, k, key)
    ensures FiledKey(ctx, ns, k + 1, key)
  {
    var i :| i < k && WorktreeAt(ns, i) && key == IdOf(ctx, NodeOrigin(ns[i]));
    assert i < k + 1;
  }

  /** The new node's own entry: an earlier node of the same origin has made it already. */
  lemma {:induction false} FiledHere(
    ctx: Ctx, ns: seq<NodeValue>, gs: seq<GroupValue>, d: map<string, Descriptor>, d': map<string, Descriptor>, k: nat)
    requires AllNamed(ns) && AllReadable(gs) && CollisionFree(ctx, ns, gs)
    requires WorktreeAt(ns, k) && FiledUpTo(ctx, ns, d, k)
    requires var key := IdOf(ctx, NodeOrigin(ns[k])); d' == if key in d then d else d[key := InitialDescriptor(ctx, ns[k])]
    ensures FiledFor(ctx, ns, d', k)
  {
    EarlierOwnerFiled(ctx, ns, d, k);
    if IdOf(ctx, NodeOrigin(ns[k])) in d {
      EarlierSameOrigin(ctx, ns, gs, d, k);
    }
  }

  lemma {:induction false} EarlierSameOrigin(ctx: Ctx, ns: seq<NodeValue>, gs: seq<GroupValue>, d: map<string, Descriptor>, k: nat)
    requires AllNamed(ns) && AllReadable(gs) && CollisionFree(ctx, ns, gs)
    requires WorktreeAt(ns, k) && FiledUpTo(ctx, ns, d, k) && IdOf(ctx, NodeOrigin(ns[k])) in d
    ensures FiledFor(ctx, ns, d, k)
  {
    assert FiledKey(ctx, ns, k, IdOf(ctx, NodeOrigin(ns[k])));
    var i :| i < k && WorktreeAt(ns, i) && IdOf(ctx, NodeOrigin(ns[k])) == IdOf(ctx, NodeOrigin(ns[i]));
    assert Occurs(ns, gs, NodeOrigin(ns[i])) && Occurs(ns, gs, NodeOrigin(ns[k]));
    assert FiledFor(ctx, ns, d, i);
    SameOwner(ns, i, k);
  }

  lemma {:induction false} EarlierOwnerFiled(ctx: Ctx, ns: seq<NodeValue>, d: map<string, Descriptor>, k: nat)
    requires AllNamed(ns) && WorktreeAt(ns, k) && FiledUpTo(ctx, ns, d, k)
    ensures FirstOwner(ns, k, 0) < k ==> IdOf(ctx, NodeOrigin(ns[k])) in d
  {
    var p := FirstOwner(ns, k, 0);
    if p < k {
      assert WorktreeAt(ns, p);
      assert FiledFor(ctx, ns, d, p);
    }
  }

  lemma {:induction false} NodesFiled(ctx: Ctx, ns: seq<NodeValue>, gs: seq<GroupValue>, k: nat)
    requires AllNamed(ns) && AllReadable(gs) && CollisionFree(ctx, ns, gs) && k <= |ns|
    ensures FiledUpTo(ctx, ns, AfterNodes(ctx, ns, k).descriptors, k)
  {
    if k > 0 {
      var p := k - 1;
      NodesFiled(ctx, ns, gs, p);
      DescriptorStep(ctx, AfterNodes(ctx, ns, p), ns[p]);
      FiledStep(ctx, ns, gs, AfterNodes(ctx, ns, p).descriptors, AfterNodes(ctx, ns, k).descriptors, p);
    }
  }

  // ---- The invariant of the second pass ----

  /** Root `b` of group `a` is a node in the main checkout. */
  predicate MainRoot(ns: seq<NodeValue>, gs: seq<GroupValue>, a: nat, b: nat) {
    InRange(gs, a, b) && RootIndex(ns, gs, a, b) >= 0 && !InWorktree(ns[RootIndex(ns, gs, a, b)])
  }

  /** Root `b` of group `a` is a worktree node of this origin. */
  predicate RootIn(ns: seq<NodeValue>, gs: seq<GroupValue>, a: nat, b: nat, o: Origin)
    requires AllNamed(ns)
  {
    && InRange(gs, a, b) && RootIndex(ns, gs, a, b) >= 0
    && InWorktree(ns[RootIndex(ns, gs, a, b)]) && NodeOrigin(ns[RootIndex(ns, gs, a, b)]) == o
  }

  ghost predicate RootInBefore(ns: seq<NodeValue>, gs: seq<GroupValue>, o: Origin, j: nat, m: nat)
    requires AllNamed(ns)
  {
    exists a: nat, b: nat :: RootIn(ns, gs, a, b, o) && Before(a, b, j, m)
  }

  /** Group `a` is the last one so far with a root of this origin. */
  ghost predicate LastRootIn(ns: seq<NodeValue>, gs: seq<GroupValue>, o: Origin, j: nat, m: nat, a: nat)
    requires AllNamed(ns)
  {
    && (exists b: nat :: RootIn(ns, gs, a, b, o) && Before(a, b, j, m))
    && forall c: nat, d: nat :: RootIn(ns, gs, c, d, o) && Before(c, d, j, m) ==> c <= a
  }

  /** The catalog entry of a worktree node: its first owner's path, and the links of the last group rooted in it. */
  ghost predicate NodeBacked(
    ctx: Ctx, ns: seq<NodeValue>, gs: seq<GroupValue>, d: map<string, Descriptor>, j: nat, m: nat, i: int)
    requires AllNamed(ns) && AllReadable(gs) && WorktreeAt(ns, i)
  {
    var o, first := NodeOrigin(ns[i]), ns[FirstOwner(ns, i, 0)];
    var key := IdOf(ctx, o);
    && key in d && !d[key].forced && d[key].path == UsablePath(first).GetOr(LegacyPath(ctx.env, key))
    && (if RootInBefore(ns, gs, o, j, m) then
          exists a: nat :: a < |gs| && LastRootIn(ns, gs, o, j, m, a) && d[key].creator == Gid(gs, a) &&
            d[key].parent == LoopTarget(ctx, ns, gs, a)
        else d[key].parent == MAIN_WORKSPACE && d[key].creator == first.place.groupId.GetOr("legacy-" + first.id.value))
  }

  ghost predicate RootBacked(ctx: Ctx, ns: seq<NodeValue>, gs: seq<GroupValue>, d: map<string, Descriptor>, a: nat, b: nat)
    requires AllNamed(ns) && AllReadable(gs) && InRange(gs, a, b)
  {
    var key := IdOf(ctx, FromRoot(Gid(gs, a), Root(gs, a, b)));
    && key in d && d[key].forced && d[key].path == LegacyPath(ctx.env, key)
    && d[key].creator == Gid(gs, a) && d[key].parent == LoopTarget(ctx, ns, gs, a)
  }

  ghost predicate Sourced(ctx: Ctx, ns: seq<NodeValue>, gs: seq<GroupValue>, key: string)
    requires AllNamed(ns) && AllReadable(gs)
  {
    || (exists i :: WorktreeAt(ns, i) && key == IdOf(ctx, NodeOrigin(ns[i])))
    || (exists a: nat, b: nat :: MainRoot(ns, gs, a, b) && key == IdOf(ctx, FromRoot(Gid(gs, a), Root(gs, a, b))))
  }

  ghost predicate NodesBacked(
    ctx: Ctx, ns: seq<NodeValue>, gs: seq<GroupValue>, d: map<string, Descriptor>, j: nat, m: nat)
    requires AllNamed(ns) && AllReadable(gs)
  {
    forall i :: WorktreeAt(ns, i) ==> NodeBacked(ctx, ns, gs, d, j, m, i)
  }

  ghost predicate RootsBacked(
    ctx: Ctx, ns: seq<NodeValue>, gs: seq<GroupValue>, d: map<string, Descriptor>, j: nat, m: nat)
    requires AllNamed(ns) && AllReadable(gs)
  {
    forall a: nat, b: nat :: MainRoot(ns, gs, a, b) && Before(a, b, j, m) ==> RootBacked(ctx, ns, gs, d, a, b)
  }

  ghost predicate AllSourced(ctx: Ctx, ns: seq<NodeValue>, gs: seq<GroupValue>, d: map<string, Descriptor>)
    requires AllNamed(ns) && AllReadable(gs)
  {
    forall key :: key in d ==> Sourced(ctx, ns, gs, key)
  }

  ghost predicate Contents(
    ctx: Ctx, ns: seq<NodeValue>, gs: seq<GroupValue>, d: map<string, Descriptor>, j: nat, m: nat)
    requires AllNamed(ns) && AllReadable(gs)
  {
    NodesBacked(ctx, ns, gs, d, j, m) && RootsBacked(ctx, ns, gs, d, j, m) && AllSourced(ctx, ns, gs, d)
  }

  lemma {:induction false} ContentsStart(ctx: Ctx, ns: seq<NodeValue>, gs: seq<GroupValue>)
    requires Shaped(ns, gs) && CollisionFree(ctx, ns, gs)
    ensures Contents(ctx, ns, gs, AfterNodes(ctx, ns, |ns|).descriptors, 0, 0)
  {
    var d := AfterNodes(ctx, ns, |ns|).descriptors;
    NodesFiled(ctx, ns, gs, |ns|);
    forall i | WorktreeAt(ns, i) ensures NodeBacked(ctx, ns, gs, d, 0, 0, i) {
      assert FiledFor(ctx, ns, d, i);
      assert !RootInBefore(ns, gs, NodeOrigin(ns[i]), 0, 0);
    }
    forall key | key in d ensures Sourced(ctx, ns, gs, key) {
      assert FiledKey(ctx, ns, |ns|, key);
    }
  }

  /** Different occurring origins have different ids. */
  lemma {:induction false} Apart(ctx: Ctx, ns: seq<NodeValue>, gs: seq<GroupValue>, a: Origin, b: Origin)
    requires AllNamed(ns) && AllReadable(gs) && CollisionFree(ctx, ns, gs)
    requires Occurs(ns, gs, a) && Occurs(ns, gs, b) && a != b
    ensures IdOf(ctx, a) != IdOf(ctx, b)
  {
  }

  /** The roots of this origin are the same before both points. */
  ghost predicate SameRoots(ns: seq<NodeValue>, gs: seq<GroupValue>, o: Origin, j: nat, m: nat, j': nat, m': nat)
    requires AllNamed(ns)
  {
    forall a: nat, b: nat :: RootIn(ns, gs, a, b, o) ==> (Before(a, b, j', m') <==> Before(a, b, j, m))
  }

  /** An entry that stays as it is keeps backing its nodes. */
  lemma {:induction false} NodeStays(
    ctx: Ctx, ns: seq<NodeValue>, gs: seq<GroupValue>, d: map<string, Descriptor>, d': map<string, Descriptor>,
    j: nat, m: nat, j': nat, m': nat, i: int)
    requires AllNamed(ns) && AllReadable(gs) && WorktreeAt(ns, i) && NodeBacked(ctx, ns, gs, d, j, m, i)
    requires var key := IdOf(ctx, NodeOrigin(ns[i])); key in d' && d'[key] == d[key]
    requires SameRoots(ns, gs, NodeOrigin(ns[i]), j, m, j', m')
    ensures NodeBacked(ctx, ns, gs, d', j', m', i)
  {
    var o := NodeOrigin(ns[i]);
    if RootInBefore(ns, gs, o, j, m) {
      var a: nat :| a < |gs| && LastRootIn(ns, gs, o, j, m, a) && d[IdOf(ctx, o)].creator == Gid(gs, a) &&
        d[IdOf(ctx, o)].parent == LoopTarget(ctx, ns, gs, a);
      LastRootStays(ns, gs, o, j, m, j', m', a);
    } else {
      assert !RootInBefore(ns, gs, o, j', m');
    }
  }

  lemma {:induction false} LastRootStays(
    ns: seq<NodeValue>, gs: seq<GroupValue>, o: Origin, j: nat, m: nat, j': nat, m': nat, a: nat)
    requires AllNamed(ns) && LastRootIn(ns, gs, o, j, m, a) && SameRoots(ns, gs, o, j, m, j', m')
    ensures LastRootIn(ns, gs, o, j', m', a) && RootInBefore(ns, gs, o, j', m')
  {
    var b: nat :| RootIn(ns, gs, a, b, o) && Before(a, b, j, m);
    assert RootIn(ns, gs, a, b, o) && Before(a, b, j', m');
  }

  /** The two differ at most in the entry of one origin. */
  ghost predicate DifferAt(d: map<string, Descriptor>, d': map<string, Descriptor>, key: string) {
    forall k :: k in d && k != key ==> k in d' && d'[k] == d[k]
  }

  /** The two differ exactly in the links of one entry. */
  ghost predicate Relinked(d: map<string, Descriptor>, d': map<string, Descriptor>, key: string, parent: string, creator: string) {
    key in d && d'.Keys == d.Keys && DifferAt(d, d', key) && d'[key] == d[key].(parent := parent, creator := creator)
  }

  lemma {:induction false} NodesStay(
    ctx: Ctx, ns: seq<NodeValue>, gs: seq<GroupValue>, d: map<string, Descriptor>, d': map<string, Descriptor>,
    j: nat, m: nat, own: Origin)
    requires AllNamed(ns) && AllReadable(gs) && CollisionFree(ctx, ns, gs) && NodesBacked(ctx, ns, gs, d, j, m)
    requires Occurs(ns, gs, own) && DifferAt(d, d', IdOf(ctx, own))
    requires forall o :: RootIn(ns, gs, j, m, o) ==> o == own
    requires forall i :: WorktreeAt(ns, i) && NodeOrigin(ns[i]) == own ==> NodeBacked(ctx, ns, gs, d', j, m + 1, i)
    ensures NodesBacked(ctx, ns, gs, d', j, m + 1)
  {
    forall i | WorktreeAt(ns, i) ensures NodeBacked(ctx, ns, gs, d', j, m + 1, i) {
      var o := NodeOrigin(ns[i]);
      if o != own {
        assert NodeBacked(ctx, ns, gs, d, j, m, i);
        assert Occurs(ns, gs, o);
        Apart(ctx, ns, gs, own, o);
        NodeStays(ctx, ns, gs, d, d', j, m, j, m + 1, i);
      }
    }
  }

  lemma {:induction false} RootsStay(
    ctx: Ctx, ns: seq<NodeValue>, gs: seq<GroupValue>, d: map<string, Descriptor>, d': map<string, Descriptor>,
    j: nat, m: nat, own: Origin)
    requires AllNamed(ns) && AllReadable(gs) && CollisionFree(ctx, ns, gs) && RootsBacked(ctx, ns, gs, d, j, m)
    requires Occurs(ns, gs, own) && DifferAt(d, d', IdOf(ctx, own))
    requires MainRoot(ns, gs, j, m) ==> own == FromRoot(Gid(gs, j), Root(gs, j, m))
    requires forall a: nat, b: nat :: MainRoot(ns, gs, a, b) && FromRoot(Gid(gs, a), Root(gs, a, b)) == own ==>
      RootBacked(ctx, ns, gs, d', a, b)
    ensures RootsBacked(ctx, ns, gs, d', j, m + 1)
  {
    forall a: nat, b: nat | MainRoot(ns, gs, a, b) && Before(a, b, j, m + 1) ensures RootBacked(ctx, ns, gs, d', a, b) {
      var o := FromRoot(Gid(gs, a), Root(gs, a, b));
      if o != own {
        RootStays(ctx, ns, gs, d, d', j, m, own, a, b);
      }
    }
  }

  lemma {:induction false} RootStays(
    ctx: Ctx, ns: seq<NodeValue>, gs: seq<GroupValue>, d: map<string, Descriptor>, d': map<string, Descriptor>,
    j: nat, m: nat, own: Origin, a: nat, b: nat)
    requires AllNamed(ns) && AllReadable(gs) && CollisionFree(ctx, ns, gs) && RootsBacked(ctx, ns, gs, d, j, m)
    requires Occurs(ns, gs, own) && DifferAt(d, d', IdOf(ctx, own))
    requires MainRoot(ns, gs, j, m) ==> own == FromRoot(Gid(gs, j), Root(gs, j, m))
    requires MainRoot(ns, gs, a, b) && Before(a, b, j, m + 1) && FromRoot(Gid(gs, a), Root(gs, a, b)) != own
    ensures RootBacked(ctx, ns, gs, d', a, b)
  {
    assert a != j || b != m;
    assert Before(a, b, j, m);
    assert RootBacked(ctx, ns, gs, d, a, b);
    assert Occurs(ns, gs, FromRoot(Gid(gs, a), Root(gs, a, b)));
    Apart(ctx, ns, gs, own, FromRoot(Gid(gs, a), Root(gs, a, b)));
  }

  lemma {:induction false} SourcesStay(
    ctx: Ctx, ns: seq<NodeValue>, gs: seq<GroupValue>, d: map<string, Descriptor>, d': map<string, Descriptor>, key: string)
    requires AllNamed(ns) && AllReadable(gs) && AllSourced(ctx, ns, gs, d)
    requires d'.Keys == d.Keys + {key} && Sourced(ctx, ns, gs, key)
    ensures AllSourced(ctx, ns, gs, d')
  {
  }

  /** A root of the main checkout gets an entry of its own; nothing else changes. */
  lemma {:induction false} MainRootContents(
    ctx: Ctx, ns: seq<NodeValue>, gs: seq<GroupValue>, d: map<string, Descriptor>, d': map<string, Descriptor>,
    j: nat, m: nat, own: Origin)
    requires Shaped(ns, gs) && CollisionFree(ctx, ns, gs) && MainRoot(ns, gs, j, m) && Contents(ctx, ns, gs, d, j, m)
    requires own == FromRoot(Gid(gs, j), Root(gs, j, m)) && RootBacked(ctx, ns, gs, d', j, m)
    requires DifferAt(d, d', IdOf(ctx, own)) && d'.Keys == d.Keys + {IdOf(ctx, own)}
    ensures Contents(ctx, ns, gs, d', j, m + 1)
  {
    assert Occurs(ns, gs, own);
    NodesStay(ctx, ns, gs, d, d', j, m, own);
    SameIdBacked(ctx, ns, gs, d', j, m);
    RootsStay(ctx, ns, gs, d, d', j, m, own);
    SourcesStay(ctx, ns, gs, d, d', IdOf(ctx, own));
  }

  lemma {:induction false} SameIdBacked(
    ctx: Ctx, ns: seq<NodeValue>, gs: seq<GroupValue>, d: map<string, Descriptor>, j: nat, m: nat)
    requires Shaped(ns, gs) && MainRoot(ns, gs, j, m) && RootBacked(ctx, ns, gs, d, j, m)
    ensures forall a: nat, b: nat ::
      MainRoot(ns, gs, a, b) && FromRoot(Gid(gs, a), Root(gs, a, b)) == FromRoot(Gid(gs, j), Root(gs, j, m)) ==>
      RootBacked(ctx, ns, gs, d, a, b)
  {
    forall a: nat, b: nat |
      MainRoot(ns, gs, a, b) && FromRoot(Gid(gs, a), Root(gs, a, b)) == FromRoot(Gid(gs, j), Root(gs, j, m))
      ensures RootBacked(ctx, ns, gs, d, a, b)
    {
      assert gs[a].id == gs[j].id;
    }
  }

  /** A root in a worktree links that worktree's entry to its group; nothing else changes. */
  lemma {:induction false} WorktreeRootContents(
    ctx: Ctx, ns: seq<NodeValue>, gs: seq<GroupValue>, d: map<string, Descriptor>, d': map<string, Descriptor>,
    j: nat, m: nat, o: Origin)
    requires Shaped(ns, gs) && CollisionFree(ctx, ns, gs) && RootIn(ns, gs, j, m, o) && Contents(ctx, ns, gs, d, j, m)
    requires Relinked(d, d', IdOf(ctx, o), LoopTarget(ctx, ns, gs, j), Gid(gs, j))
    ensures Contents(ctx, ns, gs, d', j, m + 1)
  {
    RootOccurs(ns, gs, j, m, o);
    OwnNodesLinked(ctx, ns, gs, d, d', j, m, o);
    NodesStay(ctx, ns, gs, d, d', j, m, o);
    RootsStay(ctx, ns, gs, d, d', j, m, o);
  }

  lemma {:induction false} RootOccurs(ns: seq<NodeValue>, gs: seq<GroupValue>, j: nat, m: nat, o: Origin)
    requires AllNamed(ns) && AllReadable(gs) && RootIn(ns, gs, j, m, o)
    ensures Occurs(ns, gs, o)
  {
    assert NodeOrigin(ns[RootIndex(ns, gs, j, m)]) == o;
  }

  lemma {:induction false} OwnNodesLinked(
    ctx: Ctx, ns: seq<NodeValue>, gs: seq<GroupValue>, d: map<string, Descriptor>, d': map<string, Descriptor>,
    j: nat, m: nat, o: Origin)
    requires AllNamed(ns) && AllReadable(gs) && RootIn(ns, gs, j, m, o) && NodesBacked(ctx, ns, gs, d, j, m)
    requires Relinked(d, d', IdOf(ctx, o), LoopTarget(ctx, ns, gs, j), Gid(gs, j))
    ensures forall i :: WorktreeAt(ns, i) && NodeOrigin(ns[i]) == o ==> NodeBacked(ctx, ns, gs, d', j, m + 1, i)
  {
    forall i | WorktreeAt(ns, i) && NodeOrigin(ns[i]) == o ensures NodeBacked(ctx, ns, gs, d', j, m + 1, i) {
      assert NodeBacked(ctx, ns, gs, d, j, m, i);
      NodeLinked(ctx, ns, gs, d, d', j, m, i);
    }
  }

  /** The entry of a worktree root's origin is linked to the root's group. */
  lemma {:induction false} NodeLinked(
    ctx: Ctx, ns: seq<NodeValue>, gs: seq<GroupValue>, d: map<string, Descriptor>, d': map<string, Descriptor>,
    j: nat, m: nat, i: int)
    requires AllNamed(ns) && AllReadable(gs) && WorktreeAt(ns, i) && NodeBacked(ctx, ns, gs, d, j, m, i)
    requires RootIn(ns, gs, j, m, NodeOrigin(ns[i]))
    requires Relinked(d, d', IdOf(ctx, NodeOrigin(ns[i])), LoopTarget(ctx, ns, gs, j), Gid(gs, j))
    ensures NodeBacked(ctx, ns, gs, d', j, m + 1, i)
  {
    var o, next := NodeOrigin(ns[i]), m + 1;
    assert Before(j, m, j, next);
    assert LastRootIn(ns, gs, o, j, next, j);
    assert RootInBefore(ns, gs, o, j, next);
  }

  // ---- One root ----

  /** What a root step makes of the descriptors. */
  lemma {:induction false} RootStepEntry(ctx: Ctx, ns: seq<NodeValue>, gs: seq<GroupValue>, j: nat, m: nat, w: Work, target: string)
    requires Shaped(ns, gs) && InRange(gs, j, m) && RootOwned(ns, gs, j, m) && Inv(ctx, ns, gs, j, m, w)
    ensures var d, d' := w.tables.descriptors, RootStep(ctx, w, Gid(gs, j), target, Root(gs, j, m)).tables.descriptors;
      var key := ChildId(ctx, ns, gs, j, m);
      if MainRoot(ns, gs, j, m) && !Remapped(ns, gs, j, m, RootIndex(ns, gs, j, m)) then
        DifferAt(d, d', key) && d'.Keys == d.Keys + {key} &&
        d'[key] == Descriptor(key, LegacyPath(ctx.env, key), target, Gid(gs, j), true)
      else Relinked(d, d', key, target, Gid(gs, j))
  {
    var q := RootIndex(ns, gs, j, m);
    var ws := WsAt(ctx, ns, gs, j, m, q);
    assert At(w, ns, q, ws);
    WsMain(ctx, ns, gs, j, m, q);
    if ws != MAIN_WORKSPACE && Remapped(ns, gs, j, m, q) {
      assert !InWorktree(ns[q]);
    }
  }

  lemma {:induction false} RootStepContents(ctx: Ctx, ns: seq<NodeValue>, gs: seq<GroupValue>, j: nat, m: nat, w: Work)
    requires Shaped(ns, gs) && CollisionFree(ctx, ns, gs)
    requires InRange(gs, j, m) && Inv(ctx, ns, gs, j, m, w) && Contents(ctx, ns, gs, w.tables.descriptors, j, m)
    ensures Contents(ctx, ns, gs,
      RootStep(ctx, w, Gid(gs, j), LoopTarget(ctx, ns, gs, j), Root(gs, j, m)).tables.descriptors, j, m + 1)
  {
    var target, d := LoopTarget(ctx, ns, gs, j), w.tables.descriptors;
    var d' := RootStep(ctx, w, Gid(gs, j), target, Root(gs, j, m)).tables.descriptors;
    assert RootOwned(ns, gs, j, m);
    RootStepEntry(ctx, ns, gs, j, m, w, target);
    if MainRoot(ns, gs, j, m) {
      MainRootAfter(ctx, ns, gs, d, d', j, m);
    } else {
      WorktreeRootContents(ctx, ns, gs, d, d', j, m, NodeOrigin(ns[RootIndex(ns, gs, j, m)]));
    }
  }

  /** A new entry, or the entry that an equal root id of the same group has made. */
  lemma {:induction false} MainRootAfter(
    ctx: Ctx, ns: seq<NodeValue>, gs: seq<GroupValue>, d: map<string, Descriptor>, d': map<string, Descriptor>, j: nat, m: nat)
    requires Shaped(ns, gs) && CollisionFree(ctx, ns, gs) && MainRoot(ns, gs, j, m) && Contents(ctx, ns, gs, d, j, m)
    requires var key, target := ChildId(ctx, ns, gs, j, m), LoopTarget(ctx, ns, gs, j);
      if !Remapped(ns, gs, j, m, RootIndex(ns, gs, j, m)) then
        DifferAt(d, d', key) && d'.Keys == d.Keys + {key} &&
        d'[key] == Descriptor(key, LegacyPath(ctx.env, key), target, Gid(gs, j), true)
      else Relinked(d, d', key, target, Gid(gs, j))
    ensures Contents(ctx, ns, gs, d', j, m + 1)
  {
    var key := ChildId(ctx, ns, gs, j, m);
    if Remapped(ns, gs, j, m, RootIndex(ns, gs, j, m)) {
      RepeatedRootBacked(ctx, ns, gs, d, j, m);
      assert d.Keys == d.Keys + {key};
    }
    assert RootBacked(ctx, ns, gs, d', j, m);
    MainRootContents(ctx, ns, gs, d, d', j, m, FromRoot(Gid(gs, j), Root(gs, j, m)));
  }

  lemma {:induction false} RepeatedRootBacked(
    ctx: Ctx, ns: seq<NodeValue>, gs: seq<GroupValue>, d: map<string, Descriptor>, j: nat, m: nat)
    requires Shaped(ns, gs) && MainRoot(ns, gs, j, m) && RootsBacked(ctx, ns, gs, d, j, m)
    requires Remapped(ns, gs, j, m, RootIndex(ns, gs, j, m))
    ensures RootBacked(ctx, ns, gs, d, j, m)
  {
    var q := RootIndex(ns, gs, j, m);
    assert RootOwned(ns, gs, j, m);
    var a: nat, b: nat :| Claim(ns, gs, a, b, q) && Before(a, b, j, m);
    assert gs[a].id == gs[j].id;
    assert MainRoot(ns, gs, a, b);
    assert RootBacked(ctx, ns, gs, d, a, b);
  }

  // ---- All roots, all groups ----

  lemma {:induction false} RootsContents(ctx: Ctx, ns: seq<NodeValue>, gs: seq<GroupValue>, j: nat, m: nat, w: Work)
    requires Shaped(ns, gs) && CollisionFree(ctx, ns, gs) && j < |gs| && m <= |gs[j].rootNodeIds.value|
    requires Inv(ctx, ns, gs, j, 0, w) && Contents(ctx, ns, gs, w.tables.descriptors, j, 0)
    ensures Contents(ctx, ns, gs,
      AfterRoots(ctx, w, Gid(gs, j), LoopTarget(ctx, ns, gs, j), gs[j].rootNodeIds.value, m).tables.descriptors, j, m)
  {
    if m > 0 {
      var p, target, roots := m - 1, LoopTarget(ctx, ns, gs, j), gs[j].rootNodeIds.value;
      var v := AfterRoots(ctx, w, Gid(gs, j), target, roots, p);
      RootsContents(ctx, ns, gs, j, p, w);
      InvRoots(ctx, ns, gs, j, p, w, target);
      RootStepContents(ctx, ns, gs, j, p, v);
      assert AfterRoots(ctx, w, Gid(gs, j), target, roots, m) == RootStep(ctx, v, Gid(gs, j), target, Root(gs, j, p));
    }
  }

  /** Finishing a group's roots is the same point as starting the next group. */
  lemma {:induction false} ContentsBoundary(ctx: Ctx, ns: seq<NodeValue>, gs: seq<GroupValue>, d: map<string, Descriptor>, j: nat)
    requires Shaped(ns, gs) && j < |gs| && Contents(ctx, ns, gs, d, j, |gs[j].rootNodeIds.value|)
    ensures Contents(ctx, ns, gs, d, j + 1, 0)
  {
    var n, next := |gs[j].rootNodeIds.value|, j + 1;
    forall a: nat, b: nat | InRange(gs, a, b) ensures Before(a, b, next, 0) <==> Before(a, b, j, n) {
    }
    forall i | WorktreeAt(ns, i) ensures NodeBacked(ctx, ns, gs, d, next, 0, i) {
      assert NodeBacked(ctx, ns, gs, d, j, n, i);
      NodeStays(ctx, ns, gs, d, d, j, n, next, 0, i);
    }
    forall a: nat, b: nat | MainRoot(ns, gs, a, b) && Before(a, b, next, 0) ensures RootBacked(ctx, ns, gs, d, a, b) {
      assert Before(a, b, j, n);
    }
  }

  lemma {:induction false} GroupsContents(ctx: Ctx, ns: seq<NodeValue>, gs: seq<GroupValue>, j: nat, w: Work)
    requires Shaped(ns, gs) && CollisionFree(ctx, ns, gs) && j <= |gs|
    requires Inv(ctx, ns, gs, 0, 0, w) && Contents(ctx, ns, gs, w.tables.descriptors, 0, 0)
    ensures Contents(ctx, ns, gs, AfterGroups(ctx, w, gs, j).tables.descriptors, j, 0)
  {
    if j > 0 {
      var p := j - 1;
      var v := AfterGroups(ctx, w, gs, p);
      GroupsContents(ctx, ns, gs, p, w);
      InvGroups(ctx, ns, gs, p, w);
      TargetAt(ctx, ns, gs, p, v, p);
      RootsContents(ctx, ns, gs, p, |gs[p].rootNodeIds.value|, v);
      assert AfterGroups(ctx, w, gs, j) == GroupStep(ctx, v, gs[p]);
      ContentsBoundary(ctx, ns, gs, GroupStep(ctx, v, gs[p]).tables.descriptors, p);
    }
  }

  lemma {:induction false} FinalContents(env: Env, v: GraphValue)
    requires WellFormed(env, v)
    ensures Contents(CtxOf(env, v), v.nodes.value, v.groups.value, FinalWork(env, v).tables.descriptors, |v.groups.value|, 0)
  {
    var ctx, ns, gs := CtxOf(env, v), v.nodes.value, v.groups.value;
    InvStart(ctx, ns, gs);
    ContentsStart(ctx, ns, gs);
    GroupsContents(ctx, ns, gs, |gs|, Work(PlacedNodes(ctx, ns), AfterNodes(ctx, ns, |ns|)));
  }

  // ---- What the migrated graph says ----

  /** The two paths name the same file, whichever slashes they are written with. */
  predicate SamePath(p: string, q: string) {
    |p| == |q| && forall k :: 0 <= k < |p| ==> p[k] == q[k] || (p[k] in {'/', '\\'} && q[k] in {'/', '\\'})
  }

  predicate HasPath(n: NodeValue) {
    n.place.workspacePath.Some? && !Blank(n.place.workspacePath.value)
  }

  /** Both nodes were recorded in the same worktree checkout; one without a path is in a checkout of its own. */
  predicate Together(a: NodeValue, b: NodeValue) {
    && a.place.mode == Some("worktree") && b.place.mode == Some("worktree")
    && (HasPath(a) <==> HasPath(b))
    && if HasPath(a) && HasPath(b) then SamePath(a.place.workspacePath.value, b.place.workspacePath.value) else a.id == b.id
  }

  /** Node `p` is the first that was recorded in the checkout of node `i`. */
  predicate FirstTogether(ns: seq<NodeValue>, p: nat, i: nat) {
    p <= i < |ns| && Together(ns[p], ns[i]) && forall q :: 0 <= q < p ==> !Together(ns[q], ns[i])
  }

  /** Where checkouts without a recorded path are placed. */
  function HistoricalPath(repoRoot: string, id: string): string {
    repoRoot + (if repoRoot == "" || repoRoot[|repoRoot| - 1] == '/' then "" else "/") + ".sasuke/legacy-workspaces/" + id
  }

  /** The branch that git names in an existing directory. */
  function GitBranch(env: Env, path: string): Option<string> {
    if env.pathExists(path) && env.branch(path).Some? && env.branch(path).value !in {"", "HEAD"} then env.branch(path) else None
  }

  function RepositoryHead(env: Env): string {
    if env.head(env.repoRoot).Some? then env.head(env.repoRoot).value else "legacy-unknown"
  }

  ghost predicate GroupClosed(gs: seq<GroupValue>, group: Option<string>) {
    exists g :: g in gs && g.id == group && g.status == Some("closed")
  }

  /** A runtime worktree of this run, created from its repository. */
  predicate RunWorktree(env: Env, run: RunValue, w: Workspace) {
    && w.version == "0.1" && w.kind == Worktree && w.ownership == Runtime && w.repoRoot == env.repoRoot
    && Some(w.dynamicRunId) == run.id && Some(w.createdAt) == run.startedAt && Some(w.updatedAt) == run.updatedAt
    && w.checkpointCommit.None?
  }

  /** A checkout that git may still know: its branch and head if they can be told, and active only then. */
  ghost predicate LiveCheckout(env: Env, gs: seq<GroupValue>, w: Workspace) {
    var branch := GitBranch(env, w.path);
    && w.branch == Some(if branch.Some? then branch.value else "legacy/" + w.id)
    && w.forkCommit == (if env.pathExists(w.path) && env.head(w.path).Some? then env.head(w.path).value else RepositoryHead(env))
    && w.status == (if branch.Some? && !GroupClosed(gs, w.createdByGroupId) then WsActive else WsReleased)
  }

  /** A checkout that never existed: released, whatever is found under its path. */
  predicate HistoricalCheckout(env: Env, w: Workspace) {
    && w.path == HistoricalPath(env.repoRoot, w.id) && w.branch == Some("legacy/" + w.id)
    && w.forkCommit == RepositoryHead(env) && w.status == WsReleased
  }

  lemma {:induction false} HistoricalIs(env: Env, id: string)
    ensures LegacyPath(env, id) == HistoricalPath(env.repoRoot, id)
  {
    var base := Join(env.repoRoot, ".sasuke/legacy-workspaces");
    assert base[|base| - 1] == 's';
    assert (env.repoRoot + ".sasuke/legacy-workspaces") + "/" + id == env.repoRoot + ".sasuke/legacy-workspaces/" + id;
    assert (env.repoRoot + "/" + ".sasuke/legacy-workspaces") + "/" + id ==
           env.repoRoot + "/" + ".sasuke/legacy-workspaces/" + id;
  }

  lemma {:induction false} SamePathIff(p: string, q: string)
    ensures SamePath(p, q) <==> NormalizedPath(p) == NormalizedPath(q)
  {
    var a, b := NormalizedPath(p), NormalizedPath(q);
    if a == b {
      assert |p| == |q|;
      forall k | 0 <= k < |p| ensures p[k] == q[k] || (p[k] in {'/', '\\'} && q[k] in {'/', '\\'}) {
        assert a[k] == b[k];
      }
    }
  }

  lemma {:induction false} TogetherIff(a: NodeValue, b: NodeValue)
    requires Named(a) && Named(b)
    ensures Together(a, b) <==> InWorktree(a) && InWorktree(b) && NodeOrigin(a) == NodeOrigin(b)
  {
    if HasPath(a) && HasPath(b) {
      SamePathIff(a.place.workspacePath.value, b.place.workspacePath.value);
    }
  }

  lemma {:induction false} FirstTogetherIs(ns: seq<NodeValue>, p: nat, i: nat)
    requires AllNamed(ns) && FirstTogether(ns, p, i)
    ensures WorktreeAt(ns, i) && FirstOwner(ns, i, 0) == p
  {
    TogetherIff(ns[p], ns[i]);
    var first := FirstOwner(ns, i, 0);
    forall q | 0 <= q < p ensures !(InWorktree(ns[q]) && NodeOrigin(ns[q]) == NodeOrigin(ns[i])) {
      TogetherIff(ns[q], ns[i]);
    }
    assert WorktreeAt(ns, p);
    assert first < p || first == p || p < first;
  }

  // ---- Lookups ----

  lemma {:induction false} StatusOf(gs: seq<GroupValue>, k: nat, group: string)
    requires k <= |gs| && AllReadable(gs) && UniqueGroups(gs)
    ensures Closed(GroupStatuses(gs, k), group) <==> exists i :: 0 <= i < k && gs[i].id == Some(group) && gs[i].status == Some("closed")
    ensures group in GroupStatuses(gs, k) ==> exists i :: 0 <= i < k && gs[i].id == Some(group)
  {
    if k > 0 {
      StatusOf(gs, k - 1, group);
      assert GroupError(gs[k - 1]).None?;
    }
  }

  lemma {:induction false} ClosedIs(gs: seq<GroupValue>, group: string)
    requires AllReadable(gs) && UniqueGroups(gs)
    ensures Closed(GroupStatuses(gs, |gs|), group) <==> GroupClosed(gs, Some(group))
  {
    StatusOf(gs, |gs|, group);
    if GroupClosed(gs, Some(group)) {
      var g :| g in gs && g.id == Some(group) && g.status == Some("closed");
      var i :| 0 <= i < |gs| && gs[i] == g;
    }
  }

  /** What the workspace of a descriptor says. */
  ghost predicate Records(env: Env, v: GraphValue, d: Descriptor, w: Workspace)
    requires v.run.Some? && v.groups.Some?
  {
    && w.id == d.id && RunWorktree(env, v.run.value, w)
    && w.path == d.path && w.parentWorkspaceId == Some(d.parent) && w.createdByGroupId == Some(d.creator)
    && (if d.forced then w.branch == Some("legacy/" + d.id) && w.forkCommit == RepositoryHead(env) && w.status == WsReleased
        else LiveCheckout(env, v.groups.value, w))
  }

  lemma {:induction false} EntryRecords(env: Env, v: GraphValue, d: Descriptor)
    requires Readable(v) && UniqueGroups(v.groups.value)
    ensures Records(env, v, d, LegacyWorkspace(CtxOf(env, v), d, v.run.value.startedAt.value, v.run.value.updatedAt.value,
      Closed(GroupStatuses(v.groups.value, |v.groups.value|), d.creator)))
  {
    ClosedIs(v.groups.value, d.creator);
  }

  /** The catalog entry under a key, as the workspace that the migrated graph lists. */
  lemma {:induction false} CatalogLookup(env: Env, v: GraphValue, key: string)
    requires WellFormed(env, v) && key in FinalWork(env, v).tables.descriptors
    ensures Migratable(env, v)
    ensures var d := FinalWork(env, v).tables.descriptors[key];
      var found := FindWorkspace(MigratedV01(env, v).workspaces.value, key);
      d.id == key && found.Some? && Records(env, v, d, found.value)
  {
    ShapedMigrates(env, v);
    FinalInv(env, v);
    EntryRecords(env, v, FinalWork(env, v).tables.descriptors[key]);
    CatalogFacts(CtxOf(env, v), FinalWork(env, v).tables.descriptors, GroupStatuses(v.groups.value, |v.groups.value|),
                 v.run.value.startedAt.value, v.run.value.updatedAt.value);
  }

  /** The workspace that the migrated graph gives a node. */
  function FinalWorkspace(env: Env, v: GraphValue, i: nat): Option<Workspace>
    requires Migratable(env, v) && i < |v.nodes.value|
  {
    var m := MigratedV01(env, v);
    if i < |m.nodes.value| then FindWorkspace(m.workspaces.value, m.nodes.value[i].place.workspaceId.GetOr("")) else None
  }

  lemma {:induction false} NodeLookup(env: Env, v: GraphValue, i: nat)
    requires WellFormed(env, v) && i < |v.nodes.value|
    ensures Migratable(env, v)
    ensures var m, n := MigratedV01(env, v), v.nodes.value[i];
      && |m.nodes.value| == |v.nodes.value|
      && m.nodes.value[i] == n.(place := Placement(n.place.groupId, n.place.chainId, None, None,
           Some(WsAt(CtxOf(env, v), v.nodes.value, v.groups.value, |v.groups.value|, 0, i))))
  {
    var ctx, ns, gs := CtxOf(env, v), v.nodes.value, v.groups.value;
    ShapedMigrates(env, v);
    FinalInv(env, v);
    assert At(FinalWork(env, v), ns, i, WsAt(ctx, ns, gs, |gs|, 0, i));
  }

  // ---- The theorems ----

  /**
   A worktree node that no moved chain takes along keeps its checkout: the path that the first node recorded
   there has, or a historical one if none was recorded, with git's answers about that path.
   */
  lemma {:induction false} WorktreeKeepsCheckout(env: Env, v: GraphValue, p: nat, i: nat)
    requires WellFormed(env, v) && i < |v.nodes.value| && FirstTogether(v.nodes.value, p, i)
    requires forall a: nat, b: nat :: !Claim(v.nodes.value, v.groups.value, a, b, i)
    ensures Migratable(env, v)
    ensures var first, found := v.nodes.value[p], FinalWorkspace(env, v, i);
      && found.Some? && RunWorktree(env, v.run.value, found.value) && LiveCheckout(env, v.groups.value, found.value)
      && found.value.path ==
         (if HasPath(first) then first.place.workspacePath.value else HistoricalPath(env.repoRoot, found.value.id))
  {
    var ctx, ns, gs := CtxOf(env, v), v.nodes.value, v.groups.value;
    NodeLookup(env, v, i);
    FirstTogetherIs(ns, p, i);
    FinalContents(env, v);
    var key := IdOf(ctx, NodeOrigin(ns[i]));
    assert !Remapped(ns, gs, |gs|, 0, i);
    assert NodeBacked(ctx, ns, gs, FinalWork(env, v).tables.descriptors, |gs|, 0, i);
    CatalogLookup(env, v, key);
    HistoricalIs(env, key);
  }

  /**
   A node on the chain of a root that worked in the main checkout moves, with the whole chain, to a released
   checkout that belongs to the root's group and lies below the target its group had in the loop.
   */
  lemma {:induction false} MovedChainReleased(env: Env, v: GraphValue, a: nat, b: nat, i: nat)
    requires WellFormed(env, v) && Claim(v.nodes.value, v.groups.value, a, b, i)
    ensures Migratable(env, v)
    ensures var found := FinalWorkspace(env, v, i);
      && found.Some? && RunWorktree(env, v.run.value, found.value) && HistoricalCheckout(env, found.value)
      && found.value.createdByGroupId == v.groups.value[a].id
      && found.value.parentWorkspaceId == Some(LoopTarget(CtxOf(env, v), v.nodes.value, v.groups.value, a))
  {
    var ctx, ns, gs := CtxOf(env, v), v.nodes.value, v.groups.value;
    NodeLookup(env, v, i);
    FinalContents(env, v);
    var key := IdOf(ctx, FromRoot(Gid(gs, a), Root(gs, a, b)));
    assert Before(a, b, |gs|, 0);
    assert Remapped(ns, gs, |gs|, 0, i);
    assert MainRoot(ns, gs, a, b);
    assert RootBacked(ctx, ns, gs, FinalWork(env, v).tables.descriptors, a, b);
    CatalogLookup(env, v, key);
    HistoricalIs(env, key);
  }

  /** Every other node stays in the main checkout, which is the repository itself. */
  lemma {:induction false} MainNodesStay(env: Env, v: GraphValue, i: nat)
    requires WellFormed(env, v) && i < |v.nodes.value| && v.nodes.value[i].place.mode != Some("worktree")
    requires forall a: nat, b: nat :: !Claim(v.nodes.value, v.groups.value, a, b, i)
    ensures Migratable(env, v)
    ensures FinalWorkspace(env, v, i) == Some(Workspace(
      "0.1", "workspace-main", v.run.value.id.value, Main, User, env.repoRoot, env.repoRoot, None, None, None,
      RepositoryHead(env), None, WsActive, v.run.value.startedAt.value, v.run.value.updatedAt.value))
  {
    NodeLookup(env, v, i);
    assert !Remapped(v.nodes.value, v.groups.value, |v.groups.value|, 0, i);
  }

  /** Root `b` of group `a` is a node in the same worktree as node `i`. */
  predicate RootTogether(ns: seq<NodeValue>, gs: seq<GroupValue>, a: nat, b: nat, i: nat)
    requires i < |ns|
  {
    InRange(gs, a, b) && RootIndex(ns, gs, a, b) >= 0 && Together(ns[RootIndex(ns, gs, a, b)], ns[i])
  }

  lemma {:induction false} RootsTogether(ns: seq<NodeValue>, gs: seq<GroupValue>, i: nat)
    requires AllNamed(ns) && WorktreeAt(ns, i)
    ensures var o := NodeOrigin(ns[i]);
      && (forall a: nat, b: nat :: RootTogether(ns, gs, a, b, i) <==> RootIn(ns, gs, a, b, o) && Before(a, b, |gs|, 0))
      && (RootInBefore(ns, gs, o, |gs|, 0) <==> exists a: nat, b: nat :: RootTogether(ns, gs, a, b, i))
  {
    var o := NodeOrigin(ns[i]);
    forall a: nat, b: nat ensures RootTogether(ns, gs, a, b, i) <==> RootIn(ns, gs, a, b, o) && Before(a, b, |gs|, 0) {
      if InRange(gs, a, b) && RootIndex(ns, gs, a, b) >= 0 {
        TogetherIff(ns[RootIndex(ns, gs, a, b)], ns[i]);
      }
    }
    if RootInBefore(ns, gs, o, |gs|, 0) {
      var a: nat, b: nat :| RootIn(ns, gs, a, b, o) && Before(a, b, |gs|, 0);
      assert RootTogether(ns, gs, a, b, i);
    }
  }

  /** The links of a worktree's entry: the last group with a root in it, or else the group of its first node. */
  ghost predicate LinkedLast(ctx: Ctx, ns: seq<NodeValue>, gs: seq<GroupValue>, i: nat, a: nat, w: Workspace)
    requires AllNamed(ns) && AllReadable(gs) && i < |ns|
  {
    && a < |gs| && (exists b: nat :: RootTogether(ns, gs, a, b, i))
    && (forall c: nat, d: nat :: RootTogether(ns, gs, c, d, i) ==> c <= a)
    && w.createdByGroupId == gs[a].id && w.parentWorkspaceId == Some(LoopTarget(ctx, ns, gs, a))
  }

  lemma {:induction false} LastLinked(
    ctx: Ctx, ns: seq<NodeValue>, gs: seq<GroupValue>, d: map<string, Descriptor>, i: nat, a: nat, w: Workspace)
    requires AllNamed(ns) && AllReadable(gs) && WorktreeAt(ns, i) && a < |gs|
    requires LastRootIn(ns, gs, NodeOrigin(ns[i]), |gs|, 0, a)
    requires w.createdByGroupId == Some(Gid(gs, a)) && w.parentWorkspaceId == Some(LoopTarget(ctx, ns, gs, a))
    ensures LinkedLast(ctx, ns, gs, i, a, w)
  {
    RootsTogether(ns, gs, i);
    assert GroupError(gs[a]).None?;
  }

  lemma {:induction false} WorktreeLinks(env: Env, v: GraphValue, p: nat, i: nat)
    requires WellFormed(env, v) && i < |v.nodes.value| && FirstTogether(v.nodes.value, p, i)
    requires forall a: nat, b: nat :: !Claim(v.nodes.value, v.groups.value, a, b, i)
    ensures Migratable(env, v) && FinalWorkspace(env, v, i).Some?
    ensures var ns, gs, found := v.nodes.value, v.groups.value, FinalWorkspace(env, v, i).value;
      if exists a: nat, b: nat :: RootTogether(ns, gs, a, b, i) then
        exists a: nat :: LinkedLast(CtxOf(env, v), ns, gs, i, a, found)
      else
        && found.parentWorkspaceId == Some("workspace-main")
        && found.createdByGroupId ==
           (if ns[p].place.groupId.Some? then ns[p].place.groupId else Some("legacy-" + ns[p].id.value))
  {
    var ctx, ns, gs := CtxOf(env, v), v.nodes.value, v.groups.value;
    NodeLookup(env, v, i);
    FirstTogetherIs(ns, p, i);
    FinalContents(env, v);
    assert !Remapped(ns, gs, |gs|, 0, i);
    LinksOf(env, v, p, i);
  }

  lemma {:induction false} LinksOf(env: Env, v: GraphValue, p: nat, i: nat)
    requires WellFormed(env, v) && Migratable(env, v) && WorktreeAt(v.nodes.value, i) && FirstOwner(v.nodes.value, i, 0) == p
    requires FinalWorkspace(env, v, i) ==
      FindWorkspace(MigratedV01(env, v).workspaces.value, IdOf(CtxOf(env, v), NodeOrigin(v.nodes.value[i])))
    requires NodesBacked(CtxOf(env, v), v.nodes.value, v.groups.value, FinalWork(env, v).tables.descriptors, |v.groups.value|, 0)
    ensures FinalWorkspace(env, v, i).Some?
    ensures var ns, gs, found := v.nodes.value, v.groups.value, FinalWorkspace(env, v, i).value;
      if exists a: nat, b: nat :: RootTogether(ns, gs, a, b, i) then
        exists a: nat :: LinkedLast(CtxOf(env, v), ns, gs, i, a, found)
      else
        && found.parentWorkspaceId == Some("workspace-main")
        && found.createdByGroupId ==
           (if ns[p].place.groupId.Some? then ns[p].place.groupId else Some("legacy-" + ns[p].id.value))
  {
    var ctx, ns, gs, d := CtxOf(env, v), v.nodes.value, v.groups.value, FinalWork(env, v).tables.descriptors;
    var o := NodeOrigin(ns[i]);
    assert NodeBacked(ctx, ns, gs, d, |gs|, 0, i);
    CatalogLookup(env, v, IdOf(ctx, o));
    RootsTogether(ns, gs, i);
    if RootInBefore(ns, gs, o, |gs|, 0) {
      var a: nat :| a < |gs| && LastRootIn(ns, gs, o, |gs|, 0, a) && d[IdOf(ctx, o)].creator == Gid(gs, a) &&
        d[IdOf(ctx, o)].parent == LoopTarget(ctx, ns, gs, a);
      LastLinked(ctx, ns, gs, d, i, a, FinalWorkspace(env, v, i).value);
    }
  }

  /** Nothing else is catalogued: every entry but the main one stems from a worktree node or a root in the main checkout. */
  lemma {:induction false} NothingElseCatalogued(env: Env, v: GraphValue, w: Workspace)
    requires WellFormed(env, v) && Migratable(env, v) && w in MigratedV01(env, v).workspaces.value
    ensures w.id == "workspace-main" || Sourced(CtxOf(env, v), v.nodes.value, v.groups.value, w.id)
  {
    var ws := MigratedV01(env, v).workspaces.value;
    var k :| 0 <= k < |ws| && ws[k] == w;
    assert Known(ws, ws[k].id);
    FinalContents(env, v);
    CatalogKeys(env, v, w.id);
  }

  lemma {:induction false} CatalogKeys(env: Env, v: GraphValue, id: string)
    requires Readable(v) && Shaped(v.nodes.value, v.groups.value) && Migratable(env, v)
    requires Known(MigratedV01(env, v).workspaces.value, id)
    ensures id == "workspace-main" || id in FinalWork(env, v).tables.descriptors
  {
    FinalInv(env, v);
    CatalogFacts(CtxOf(env, v), FinalWork(env, v).tables.descriptors, GroupStatuses(v.groups.value, |v.groups.value|),
                 v.run.value.startedAt.value, v.run.value.updatedAt.value);
  }

  /** The step rewrites versions, placements and links only, and the links are those of the final workspaces. */
  lemma {:induction false} MigrationTouchesOnly(env: Env, v: GraphValue, i: nat, a: nat)
    requires WellFormed(env, v)
    ensures Migratable(env, v)
    ensures var m := MigratedV01(env, v);
      && m == v.(version := Some("0.2"), nodes := m.nodes, groups := m.groups, workspaces := m.workspaces)
      && m.workspaces.Some? && |m.nodes.value| == |v.nodes.value| && |m.groups.value| == |v.groups.value|
      && (i < |m.nodes.value| ==>
            m.nodes.value[i] == v.nodes.value[i].(place := v.nodes.value[i].place.(
              mode := None, workspacePath := None, workspaceId := m.nodes.value[i].place.workspaceId)))
      && (a < |m.groups.value| ==>
            var g := m.groups.value[a];
            && g == v.groups.value[a].(targetWorkspaceId := g.targetWorkspaceId, childWorkspaceIds := g.childWorkspaceIds)
            && g.targetWorkspaceId.Some? && g.childWorkspaceIds.Some?
            && |g.childWorkspaceIds.value| == |g.rootNodeIds.value|)
  {
    ShapedMigrates(env, v);
    FinalInv(env, v);
    if i < |v.nodes.value| {
      NodeLookup(env, v, i);
    }
  }
}
