/**
 What the v0.1 catalog migration achieves: a closed form for every workspace id it assigns, and from
 it the exact condition under which the migrated graph passes `validate_workspace_topology`.
 */
module CatalogTopology {
  import opened Wrappers
  import opened Ordered
  import opened GraphModel
  import opened CatalogMigration

  // ---- Vocabulary ----

  predicate InRange(gs: seq<GroupValue>, j: nat, m: nat) {
    j < |gs| && gs[j].rootNodeIds.Some? && m < |gs[j].rootNodeIds.value|
  }

  function Gid(gs: seq<GroupValue>, j: nat): string
    requires AllReadable(gs) && j < |gs|
  {
    gs[j].id.value
  }

  function Root(gs: seq<GroupValue>, j: nat, m: nat): string
    requires InRange(gs, j, m)
  {
    gs[j].rootNodeIds.value[m]
  }

  /** Position of the last node with this id, or -1. */
  function IndexOf(ns: seq<NodeValue>, id: string): (r: int)
    ensures -1 <= r < |ns|
    ensures r >= 0 ==> ns[r].id == Some(id)
    ensures r < 0 ==> forall i :: 0 <= i < |ns| ==> ns[i].id != Some(id)
  {
    if ns == [] then -1
    else if ns[|ns| - 1].id == Some(id) then |ns| - 1
    else IndexOf(ns[..|ns| - 1], id)
  }

  predicate UniqueNodes(ns: seq<NodeValue>) {
    forall i, j :: 0 <= i < j < |ns| ==> ns[i].id != ns[j].id
  }

  predicate UniqueGroups(gs: seq<GroupValue>) {
    forall i, j :: 0 <= i < j < |gs| ==> gs[i].id != gs[j].id
  }

  /** Every root names a node of that group which heads its own chain. */
  predicate RootOwned(ns: seq<NodeValue>, gs: seq<GroupValue>, j: nat, m: nat)
    requires AllReadable(gs) && InRange(gs, j, m)
  {
    var q := IndexOf(ns, Root(gs, j, m));
    q >= 0 && ns[q].place.groupId == Some(Gid(gs, j)) && ns[q].place.chainId == Some(Root(gs, j, m))
  }

  /** The identities that the migration of this graph hashes. */
  ghost predicate Occurs(ns: seq<NodeValue>, gs: seq<GroupValue>, o: Origin)
    requires AllNamed(ns) && AllReadable(gs)
  {
    || (exists i :: 0 <= i < |ns| && InWorktree(ns[i]) && NodeOrigin(ns[i]) == o)
    || (exists j: nat, m: nat :: InRange(gs, j, m) && o == FromRoot(Gid(gs, j), Root(gs, j, m)))
  }

  /** No two different identities of this graph hash to the same workspace id. */
  ghost predicate CollisionFree(ctx: Ctx, ns: seq<NodeValue>, gs: seq<GroupValue>)
    requires AllNamed(ns) && AllReadable(gs)
  {
    forall a, b :: Occurs(ns, gs, a) && Occurs(ns, gs, b) && IdOf(ctx, a) == IdOf(ctx, b) ==> a == b
  }

  /** Named nodes and groups, unique ids, and every root heads a chain of its own group. */
  ghost predicate Shaped(ns: seq<NodeValue>, gs: seq<GroupValue>) {
    && AllNamed(ns) && AllReadable(gs)
    && UniqueNodes(ns) && UniqueGroups(gs)
    && (forall j: nat, m: nat :: InRange(gs, j, m) ==> RootOwned(ns, gs, j, m))
  }

  predicate Before(a: nat, b: nat, j: nat, m: nat) {
    a < j || (a == j && b < m)
  }

  /** Processing root `m` of group `j` moves node `i`: the root sits in the main checkout and `i` is on its chain. */
  predicate Claim(ns: seq<NodeValue>, gs: seq<GroupValue>, j: nat, m: nat, i: nat)
    requires AllReadable(gs)
  {
    && InRange(gs, j, m) && i < |ns|
    && ns[i].place.groupId == Some(Gid(gs, j)) && ns[i].place.chainId == Some(Root(gs, j, m))
    && IndexOf(ns, Root(gs, j, m)) >= 0 && !InWorktree(ns[IndexOf(ns, Root(gs, j, m))])
  }

  ghost predicate Remapped(ns: seq<NodeValue>, gs: seq<GroupValue>, j: nat, m: nat, i: nat)
    requires AllReadable(gs)
  {
    exists a: nat, b: nat :: Claim(ns, gs, a, b, i) && Before(a, b, j, m)
  }

  /** Closed form: the workspace of node `i` when `j` groups and `m` roots of the next are done. */
  ghost function WsAt(ctx: Ctx, ns: seq<NodeValue>, gs: seq<GroupValue>, j: nat, m: nat, i: nat): string
    requires AllNamed(ns) && AllReadable(gs) && i < |ns|
  {
    if Remapped(ns, gs, j, m, i)
    then IdOf(ctx, FromRoot(ns[i].place.groupId.GetOr(""), ns[i].place.chainId.GetOr("")))
    else InitialId(ctx, ns[i])
  }

  /** Position of the node that created group `a`, or -1. */
  function Creator(ns: seq<NodeValue>, g: GroupValue): (r: int)
    ensures -1 <= r < |ns|
  {
    if g.createdByNodeId.Some? then IndexOf(ns, g.createdByNodeId.value) else -1
  }

  /** The target that the loop of the second pass computes for group `a`. */
  ghost function LoopTarget(ctx: Ctx, ns: seq<NodeValue>, gs: seq<GroupValue>, a: nat): string
    requires AllNamed(ns) && AllReadable(gs) && a < |gs|
  {
    var c := Creator(ns, gs[a]);
    if c >= 0 then WsAt(ctx, ns, gs, a, 0, c) else MAIN_WORKSPACE
  }

  /** The target that the third pass writes into group `a`. */
  ghost function FinalTarget(ctx: Ctx, ns: seq<NodeValue>, gs: seq<GroupValue>, a: nat): string
    requires AllNamed(ns) && AllReadable(gs) && a < |gs|
  {
    var c := Creator(ns, gs[a]);
    if c >= 0 then WsAt(ctx, ns, gs, |gs|, 0, c) else MAIN_WORKSPACE
  }

  function RootIndex(ns: seq<NodeValue>, gs: seq<GroupValue>, a: nat, b: nat): int
    requires InRange(gs, a, b)
  {
    IndexOf(ns, Root(gs, a, b))
  }

  /** The workspace of a root once it has been processed. */
  function ChildId(ctx: Ctx, ns: seq<NodeValue>, gs: seq<GroupValue>, a: nat, b: nat): string
    requires AllNamed(ns) && AllReadable(gs) && InRange(gs, a, b) && RootIndex(ns, gs, a, b) >= 0
  {
    var q := RootIndex(ns, gs, a, b);
    if InWorktree(ns[q]) then InitialId(ctx, ns[q]) else IdOf(ctx, FromRoot(Gid(gs, a), Root(gs, a, b)))
  }

  // ---- The two conditions a caller can check ----

  /** The two roots work in the same worktree checkout. */
  predicate SameCheckout(ns: seq<NodeValue>, gs: seq<GroupValue>, a: nat, b: nat, c: nat, d: nat)
    requires AllNamed(ns) && InRange(gs, a, b) && InRange(gs, c, d)
  {
    var p := RootIndex(ns, gs, a, b);
    var q := RootIndex(ns, gs, c, d);
    p >= 0 && q >= 0 && InWorktree(ns[p]) && InWorktree(ns[q]) && NodeOrigin(ns[p]) == NodeOrigin(ns[q])
  }

  /** Worktree roots of different groups do not share a checkout. */
  ghost predicate RootsSeparated(ns: seq<NodeValue>, gs: seq<GroupValue>)
    requires AllNamed(ns)
  {
    forall a: nat, b: nat, c: nat, d: nat ::
      InRange(gs, a, b) && InRange(gs, c, d) && SameCheckout(ns, gs, a, b, c, d) ==> a == c
  }

  /** The creator of a group that has roots is not moved by that group or by a later one. */
  ghost predicate CreatorsSettled(ns: seq<NodeValue>, gs: seq<GroupValue>)
    requires AllReadable(gs)
  {
    forall a: nat, c: nat, d: nat ::
      a < |gs| && gs[a].rootNodeIds.value != [] && Creator(ns, gs[a]) >= 0 && a <= c
      ==> !Claim(ns, gs, c, d, Creator(ns, gs[a]))
  }

  // ---- Distinctness of ids ----

  lemma {:induction false} LegacyIsNotMain(ctx: Ctx, o: Origin)
    ensures IdOf(ctx, o) != MAIN_WORKSPACE
  {
    assert IdOf(ctx, o)[10] == 'l';
    assert MAIN_WORKSPACE[10] == 'm';
  }

  predicate IsLegacyId(s: string) {
    |s| > 10 && s[10] == 'l'
  }

  lemma {:induction false} IdOfIsLegacy(ctx: Ctx, o: Origin)
    ensures IsLegacyId(IdOf(ctx, o))
  {
    assert IdOf(ctx, o)[10] == 'l';
  }

  // ---- First pass ----

  predicate Entered(ctx: Ctx, t: Tables, n: NodeValue)
    requires Named(n)
  {
    && n.id.value in t.ids && t.ids[n.id.value] == InitialId(ctx, n)
    && (InWorktree(n) ==> InitialId(ctx, n) in t.descriptors)
  }

  predicate DescriptorsKeyed(t: Tables) {
    forall d :: d in t.descriptors ==> t.descriptors[d].id == d && IsLegacyId(d)
  }

  ghost predicate EnteredUpTo(ctx: Ctx, ns: seq<NodeValue>, t: Tables, k: nat)
    requires k <= |ns| && AllNamed(ns)
  {
    && (forall x :: x in t.ids ==> IndexOf(ns, x) >= 0)
    && (forall i :: 0 <= i < k ==> Entered(ctx, t, ns[i]))
    && DescriptorsKeyed(t)
  }

  lemma {:induction false} NodeStepEnters(ctx: Ctx, ns: seq<NodeValue>, t: Tables, k: nat)
    requires k < |ns| && AllNamed(ns) && UniqueNodes(ns) && EnteredUpTo(ctx, ns, t, k)
    ensures EnteredUpTo(ctx, ns, NodeStep(ctx, t, ns[k]), k + 1)
  {
    var n := ns[k];
    var t' := NodeStep(ctx, t, n);
    if InWorktree(n) {
      IdOfIsLegacy(ctx, NodeOrigin(n));
    }
    IndexUnique(ns, k);
    forall i | 0 <= i < k + 1 ensures Entered(ctx, t', ns[i]) {
      if i < k {
        assert Entered(ctx, t, ns[i]);
        assert ns[i].id != n.id;
      }
    }
  }

  lemma {:induction false} AfterNodesFacts(ctx: Ctx, ns: seq<NodeValue>, k: nat)
    requires k <= |ns| && AllNamed(ns) && UniqueNodes(ns)
    ensures EnteredUpTo(ctx, ns, AfterNodes(ctx, ns, k), k)
  {
    if k > 0 {
      var p := k - 1;
      AfterNodesFacts(ctx, ns, p);
      var t := AfterNodes(ctx, ns, p);
      NodeStepEnters(ctx, ns, t, p);
      assert AfterNodes(ctx, ns, k) == NodeStep(ctx, t, ns[p]);
    }
  }

  // ---- Second pass: the invariant ----

  ghost predicate Linked(ctx: Ctx, ns: seq<NodeValue>, gs: seq<GroupValue>,
                         descriptors: map<string, Descriptor>, a: nat, b: nat)
    requires Shaped(ns, gs) && InRange(gs, a, b)
  {
    assert RootOwned(ns, gs, a, b);
    var key := ChildId(ctx, ns, gs, a, b);
    && key in descriptors
    && descriptors[key].parent == LoopTarget(ctx, ns, gs, a)
    && descriptors[key].creator == Gid(gs, a)
  }

  ghost predicate Inv(ctx: Ctx, ns: seq<NodeValue>, gs: seq<GroupValue>, j: nat, m: nat, w: Work)
    requires AllNamed(ns) && AllReadable(gs)
  {
    && |w.nodes| == |ns|
    && (forall i :: 0 <= i < |ns| ==> At(w, ns, i, WsAt(ctx, ns, gs, j, m, i)))
    && (forall x :: x in w.tables.ids ==> IndexOf(ns, x) >= 0)
    && DescriptorsKeyed(w.tables)
  }

  /** The three structures agree that node `i` works in `ws`, and the catalog knows `ws`. */
  predicate At(w: Work, ns: seq<NodeValue>, i: nat, ws: string)
    requires AllNamed(ns) && |w.nodes| == |ns| && i < |ns|
  {
    && w.nodes[i] == Placed(ns[i], ws)
    && ns[i].id.value in w.tables.ids && w.tables.ids[ns[i].id.value] == ws
    && (ws == MAIN_WORKSPACE || ws in w.tables.descriptors)
  }

  ghost predicate LinksInv(ctx: Ctx, ns: seq<NodeValue>, gs: seq<GroupValue>, j: nat, m: nat, w: Work)
    requires Shaped(ns, gs)
  {
    forall a: nat, b: nat :: InRange(gs, a, b) && Before(a, b, j, m) ==>
      Linked(ctx, ns, gs, w.tables.descriptors, a, b)
  }

  lemma {:induction false} InvStart(ctx: Ctx, ns: seq<NodeValue>, gs: seq<GroupValue>)
    requires Shaped(ns, gs)
    ensures Inv(ctx, ns, gs, 0, 0, Work(PlacedNodes(ctx, ns), AfterNodes(ctx, ns, |ns|)))
  {
    AfterNodesFacts(ctx, ns, |ns|);
    var t := AfterNodes(ctx, ns, |ns|);
    var w := Work(PlacedNodes(ctx, ns), t);
    forall i | 0 <= i < |ns| ensures At(w, ns, i, WsAt(ctx, ns, gs, 0, 0, i)) {
      assert !Remapped(ns, gs, 0, 0, i);
      assert Entered(ctx, t, ns[i]);
    }
  }

  /** Ids of unique nodes determine their position. */
  lemma {:induction false} IndexUnique(ns: seq<NodeValue>, i: nat)
    requires UniqueNodes(ns) && i < |ns| && ns[i].id.Some?
    ensures IndexOf(ns, ns[i].id.value) == i
  {
    var r := IndexOf(ns, ns[i].id.value);
    assert r >= 0;
    assert r < i || r == i || i < r;
  }

  lemma {:induction false} WsMain(ctx: Ctx, ns: seq<NodeValue>, gs: seq<GroupValue>, j: nat, m: nat, i: nat)
    requires AllNamed(ns) && AllReadable(gs) && i < |ns|
    ensures WsAt(ctx, ns, gs, j, m, i) == MAIN_WORKSPACE <==> !Remapped(ns, gs, j, m, i) && !InWorktree(ns[i])
  {
    LegacyIsNotMain(ctx, FromRoot(ns[i].place.groupId.GetOr(""), ns[i].place.chainId.GetOr("")));
    if InWorktree(ns[i]) {
      LegacyIsNotMain(ctx, NodeOrigin(ns[i]));
    }
  }

  /** A node is claimed by one group only, and by one root id of it. */
  lemma {:induction false} ClaimUnique(ns: seq<NodeValue>, gs: seq<GroupValue>, a: nat, b: nat, c: nat, d: nat, i: nat)
    requires Shaped(ns, gs) && Claim(ns, gs, a, b, i) && Claim(ns, gs, c, d, i)
    ensures a == c && Root(gs, a, b) == Root(gs, c, d)
  {
    assert gs[a].id == gs[c].id;
  }

  /** How the set of moved nodes grows when one more root is processed. */
  lemma {:induction false} RemapGrows(ctx: Ctx, ns: seq<NodeValue>, gs: seq<GroupValue>, j: nat, m: nat, i: nat)
    requires Shaped(ns, gs) && InRange(gs, j, m) && i < |ns|
    ensures Remapped(ns, gs, j, m + 1, i) <==> Remapped(ns, gs, j, m, i) || Claim(ns, gs, j, m, i)
  {
    if Claim(ns, gs, j, m, i) {
      assert Before(j, m, j, m + 1);
    }
    if Remapped(ns, gs, j, m, i) {
      var a: nat, b: nat :| Claim(ns, gs, a, b, i) && Before(a, b, j, m);
      assert Before(a, b, j, m + 1);
    }
    if Remapped(ns, gs, j, m + 1, i) && !Claim(ns, gs, j, m, i) {
      var a: nat, b: nat :| Claim(ns, gs, a, b, i) && Before(a, b, j, m + 1);
      assert Before(a, b, j, m);
    }
  }

  /** A root found in the main checkout claims exactly its chain. */
  lemma {:induction false} MainRootClaims(ctx: Ctx, ns: seq<NodeValue>, gs: seq<GroupValue>, j: nat, m: nat, i: nat)
    requires Shaped(ns, gs) && InRange(gs, j, m) && i < |ns|
    requires RootOwned(ns, gs, j, m)
    requires WsAt(ctx, ns, gs, j, m, RootIndex(ns, gs, j, m)) == MAIN_WORKSPACE
    ensures Claim(ns, gs, j, m, i) <==> InChain(ns[i], Gid(gs, j), Root(gs, j, m))
    ensures WsAt(ctx, ns, gs, j, m + 1, i) ==
            if InChain(ns[i], Gid(gs, j), Root(gs, j, m)) then IdOf(ctx, FromRoot(Gid(gs, j), Root(gs, j, m)))
            else WsAt(ctx, ns, gs, j, m, i)
  {
    WsMain(ctx, ns, gs, j, m, RootIndex(ns, gs, j, m));
    RemapGrows(ctx, ns, gs, j, m, i);
  }

  /** A root found anywhere else moves nothing that was not moved already. */
  lemma {:induction false} OtherRootMovesNothing(ctx: Ctx, ns: seq<NodeValue>, gs: seq<GroupValue>, j: nat, m: nat, i: nat)
    requires Shaped(ns, gs) && InRange(gs, j, m) && i < |ns|
    requires RootOwned(ns, gs, j, m)
    requires WsAt(ctx, ns, gs, j, m, RootIndex(ns, gs, j, m)) != MAIN_WORKSPACE
    ensures WsAt(ctx, ns, gs, j, m + 1, i) == WsAt(ctx, ns, gs, j, m, i)
  {
    var q := RootIndex(ns, gs, j, m);
    WsMain(ctx, ns, gs, j, m, q);
    RemapGrows(ctx, ns, gs, j, m, i);
    if Claim(ns, gs, j, m, i) {
      assert Remapped(ns, gs, j, m, q);
      var a: nat, b: nat :| Claim(ns, gs, a, b, q) && Before(a, b, j, m);
      assert gs[a].id == gs[j].id;
      assert Claim(ns, gs, a, b, i);
      assert Remapped(ns, gs, j, m, i);
    }
  }

  /** What remapping one chain does to the map of ids. */
  lemma {:induction false} RemapIdsFacts(nodes: seq<NodeValue>, group: string, root: string, ws: string,
                                         ids: map<string, string>, k: nat)
    requires k <= |nodes|
    requires forall i :: 0 <= i < |nodes| && InChain(nodes[i], group, root) ==> nodes[i].id.value in ids
    ensures var r := RemapIds(nodes, group, root, ws, ids, k);
      && r.Keys == ids.Keys
      && (forall i :: 0 <= i < k && InChain(nodes[i], group, root) ==> r[nodes[i].id.value] == ws)
      && (forall x :: x in ids && (forall i :: 0 <= i < k && InChain(nodes[i], group, root) ==> nodes[i].id != Some(x))
                      ==> r[x] == ids[x])
  {
    if k > 0 {
      RemapIdsFacts(nodes, group, root, ws, ids, k - 1);
    }
  }

  /** Nodes, id map and catalog stay in step while one chain is taken over by the workspace of `d`. */
  lemma {:induction false} ChainTakenOver(w: Work, ns: seq<NodeValue>, ws: seq<string>, group: string, root: string, d: Descriptor)
    requires AllNamed(ns) && UniqueNodes(ns) && |ws| == |ns| == |w.nodes|
    requires forall i :: 0 <= i < |ns| ==> At(w, ns, i, ws[i])
    ensures
      var w' := TakeOver(w, group, root, d);
      && w'.tables.ids.Keys == w.tables.ids.Keys
      && forall i :: 0 <= i < |ns| ==> At(w', ns, i, if InChain(ns[i], group, root) then d.id else ws[i])
  {
    forall i | 0 <= i < |ns|
      ensures w.nodes[i].id == ns[i].id && ns[i].id.value in w.tables.ids
      ensures InChain(w.nodes[i], group, root) <==> InChain(ns[i], group, root)
    {
      assert At(w, ns, i, ws[i]);
    }
    RemapIdsFacts(w.nodes, group, root, d.id, w.tables.ids, |w.nodes|);
    var ids := RemapIds(w.nodes, group, root, d.id, w.tables.ids, |w.nodes|);
    forall i | 0 <= i < |ns|
      ensures ids[ns[i].id.value] == if InChain(ns[i], group, root) then d.id else ws[i]
    {
      assert At(w, ns, i, ws[i]);
      if !InChain(ns[i], group, root) {
        forall k | 0 <= k < |w.nodes| && InChain(w.nodes[k], group, root)
          ensures w.nodes[k].id != Some(ns[i].id.value)
        {
          assert ns[k].id == w.nodes[k].id;
          assert k < i || i < k;
        }
      }
    }
    forall i | 0 <= i < |ns|
      ensures RemapNode(w.nodes[i], group, root, d.id) == Placed(ns[i], if InChain(ns[i], group, root) then d.id else ws[i])
      ensures ws[i] == MAIN_WORKSPACE || ws[i] in w.tables.descriptors
    {
      assert At(w, ns, i, ws[i]);
    }
  }

  /** The main case of one root: a fresh workspace takes over its chain. */
  lemma {:induction false} InvMainRoot(ctx: Ctx, ns: seq<NodeValue>, gs: seq<GroupValue>, j: nat, m: nat, w: Work, target: string)
    requires Shaped(ns, gs) && InRange(gs, j, m) && RootOwned(ns, gs, j, m)
    requires Inv(ctx, ns, gs, j, m, w)
    requires WsAt(ctx, ns, gs, j, m, RootIndex(ns, gs, j, m)) == MAIN_WORKSPACE
    ensures Inv(ctx, ns, gs, j, m + 1, RootStep(ctx, w, Gid(gs, j), target, Root(gs, j, m)))
  {
    var group, root := Gid(gs, j), Root(gs, j, m);
    var d := SyntheticDescriptor(ctx, group, root, target);
    var ws := seq(|ns|, i requires 0 <= i < |ns| => WsAt(ctx, ns, gs, j, m, i));
    IdOfIsLegacy(ctx, FromRoot(group, root));
    ChainTakenOver(w, ns, ws, group, root, d);
    assert RootStep(ctx, w, group, target, root) == TakeOver(w, group, root, d) by {
      assert At(w, ns, RootIndex(ns, gs, j, m), MAIN_WORKSPACE);
    }
    MainRootAdvances(ctx, ns, gs, j, m, ws, TakeOver(w, group, root, d));
  }

  lemma {:induction false} MainRootAdvances(ctx: Ctx, ns: seq<NodeValue>, gs: seq<GroupValue>, j: nat, m: nat, ws: seq<string>, w: Work)
    requires Shaped(ns, gs) && InRange(gs, j, m) && RootOwned(ns, gs, j, m)
    requires WsAt(ctx, ns, gs, j, m, RootIndex(ns, gs, j, m)) == MAIN_WORKSPACE
    requires |ws| == |ns| == |w.nodes| && forall i :: 0 <= i < |ns| ==> ws[i] == WsAt(ctx, ns, gs, j, m, i)
    requires forall i :: 0 <= i < |ns| ==>
      At(w, ns, i, if InChain(ns[i], Gid(gs, j), Root(gs, j, m)) then IdOf(ctx, FromRoot(Gid(gs, j), Root(gs, j, m)))
                   else ws[i])
    requires (forall x :: x in w.tables.ids ==> IndexOf(ns, x) >= 0) && DescriptorsKeyed(w.tables)
    ensures Inv(ctx, ns, gs, j, m + 1, w)
  {
    var next := m + 1;
    forall i | 0 <= i < |ns| ensures At(w, ns, i, WsAt(ctx, ns, gs, j, next, i)) {
      MainRootClaims(ctx, ns, gs, j, m, i);
      assert At(w, ns, i, if InChain(ns[i], Gid(gs, j), Root(gs, j, m)) then IdOf(ctx, FromRoot(Gid(gs, j), Root(gs, j, m)))
                          else ws[i]);
    }
  }

  lemma {:induction false} InvRootStep(ctx: Ctx, ns: seq<NodeValue>, gs: seq<GroupValue>, j: nat, m: nat, w: Work, target: string)
    requires Shaped(ns, gs) && InRange(gs, j, m)
    requires Inv(ctx, ns, gs, j, m, w)
    ensures Inv(ctx, ns, gs, j, m + 1, RootStep(ctx, w, Gid(gs, j), target, Root(gs, j, m)))
  {
    assert RootOwned(ns, gs, j, m);
    var q := RootIndex(ns, gs, j, m);
    assert At(w, ns, q, WsAt(ctx, ns, gs, j, m, q));
    if WsAt(ctx, ns, gs, j, m, q) == MAIN_WORKSPACE {
      InvMainRoot(ctx, ns, gs, j, m, w, target);
    } else {
      var w' := RootStep(ctx, w, Gid(gs, j), target, Root(gs, j, m));
      var next := m + 1;
      forall i | 0 <= i < |ns| ensures At(w', ns, i, WsAt(ctx, ns, gs, j, next, i)) {
        OtherRootMovesNothing(ctx, ns, gs, j, m, i);
        assert At(w, ns, i, WsAt(ctx, ns, gs, j, m, i));
      }
    }
  }

  // ---- Second pass: all roots, all groups ----

  lemma {:induction false} InvRoots(ctx: Ctx, ns: seq<NodeValue>, gs: seq<GroupValue>, j: nat, m: nat, w: Work, target: string)
    requires Shaped(ns, gs) && j < |gs| && m <= |gs[j].rootNodeIds.value|
    requires Inv(ctx, ns, gs, j, 0, w)
    ensures Inv(ctx, ns, gs, j, m, AfterRoots(ctx, w, Gid(gs, j), target, gs[j].rootNodeIds.value, m))
  {
    if m > 0 {
      var p, roots := m - 1, gs[j].rootNodeIds.value;
      var v := AfterRoots(ctx, w, Gid(gs, j), target, roots, p);
      InvRoots(ctx, ns, gs, j, p, w, target);
      InvRootStep(ctx, ns, gs, j, p, v, target);
      assert AfterRoots(ctx, w, Gid(gs, j), target, roots, m) == RootStep(ctx, v, Gid(gs, j), target, Root(gs, j, p));
    }
  }

  /** Finishing the roots of a group is the same point as starting the next group. */
  lemma {:induction false} GroupBoundary(ctx: Ctx, ns: seq<NodeValue>, gs: seq<GroupValue>, j: nat, i: nat)
    requires Shaped(ns, gs) && j < |gs| && i < |ns|
    ensures WsAt(ctx, ns, gs, j, |gs[j].rootNodeIds.value|, i) == WsAt(ctx, ns, gs, j + 1, 0, i)
  {
    var n := |gs[j].rootNodeIds.value|;
    if Remapped(ns, gs, j, n, i) {
      var a: nat, b: nat :| Claim(ns, gs, a, b, i) && Before(a, b, j, n);
      assert Before(a, b, j + 1, 0);
    }
    if Remapped(ns, gs, j + 1, 0, i) {
      var a: nat, b: nat :| Claim(ns, gs, a, b, i) && Before(a, b, j + 1, 0);
      assert Before(a, b, j, n);
    }
  }

  lemma {:induction false} InvGroupStep(ctx: Ctx, ns: seq<NodeValue>, gs: seq<GroupValue>, j: nat, w: Work)
    requires Shaped(ns, gs) && j < |gs| && Inv(ctx, ns, gs, j, 0, w)
    ensures Inv(ctx, ns, gs, j + 1, 0, GroupStep(ctx, w, gs[j]))
  {
    var n, next := |gs[j].rootNodeIds.value|, j + 1;
    var w' := GroupStep(ctx, w, gs[j]);
    InvRoots(ctx, ns, gs, j, n, w, Target(w.tables.ids, gs[j]));
    forall i | 0 <= i < |ns| ensures At(w', ns, i, WsAt(ctx, ns, gs, next, 0, i)) {
      GroupBoundary(ctx, ns, gs, j, i);
      assert At(w', ns, i, WsAt(ctx, ns, gs, j, n, i));
    }
  }

  lemma {:induction false} InvGroups(ctx: Ctx, ns: seq<NodeValue>, gs: seq<GroupValue>, j: nat, w: Work)
    requires Shaped(ns, gs) && j <= |gs| && Inv(ctx, ns, gs, 0, 0, w)
    ensures Inv(ctx, ns, gs, j, 0, AfterGroups(ctx, w, gs, j))
  {
    if j > 0 {
      var p := j - 1;
      var v := AfterGroups(ctx, w, gs, p);
      InvGroups(ctx, ns, gs, p, w);
      assert Inv(ctx, ns, gs, p, 0, v);
      InvGroupStep(ctx, ns, gs, p, v);
    }
  }

  /** The map of ids answers the creator lookup with the closed form. */
  lemma {:induction false} TargetAt(ctx: Ctx, ns: seq<NodeValue>, gs: seq<GroupValue>, j: nat, w: Work, a: nat)
    requires Shaped(ns, gs) && Inv(ctx, ns, gs, j, 0, w) && a < |gs|
    ensures Target(w.tables.ids, gs[a]) ==
            if Creator(ns, gs[a]) >= 0 then WsAt(ctx, ns, gs, j, 0, Creator(ns, gs[a])) else MAIN_WORKSPACE
  {
    var c := Creator(ns, gs[a]);
    if c >= 0 {
      assert At(w, ns, c, WsAt(ctx, ns, gs, j, 0, c));
    }
  }

  // ---- Second pass: links ----

  /** The identity behind a root's workspace. */
  function ChildOrigin(ns: seq<NodeValue>, gs: seq<GroupValue>, a: nat, b: nat): Origin
    requires AllNamed(ns) && AllReadable(gs) && InRange(gs, a, b) && RootIndex(ns, gs, a, b) >= 0
  {
    var q := RootIndex(ns, gs, a, b);
    if InWorktree(ns[q]) then NodeOrigin(ns[q]) else FromRoot(Gid(gs, a), Root(gs, a, b))
  }

  /** Two groups never share a child workspace. */
  ghost predicate ChildrenSeparated(ctx: Ctx, ns: seq<NodeValue>, gs: seq<GroupValue>)
    requires Shaped(ns, gs)
  {
    forall a: nat, b: nat, c: nat, d: nat :: InRange(gs, a, b) && InRange(gs, c, d) ==>
      RootOwned(ns, gs, a, b) && RootOwned(ns, gs, c, d) &&
      (ChildId(ctx, ns, gs, a, b) == ChildId(ctx, ns, gs, c, d) ==> a == c)
  }

  lemma {:induction false} SeparationTransfers(ctx: Ctx, ns: seq<NodeValue>, gs: seq<GroupValue>)
    requires Shaped(ns, gs) && CollisionFree(ctx, ns, gs) && RootsSeparated(ns, gs)
    ensures ChildrenSeparated(ctx, ns, gs)
  {
    forall a: nat, b: nat, c: nat, d: nat | InRange(gs, a, b) && InRange(gs, c, d)
      ensures RootOwned(ns, gs, a, b) && RootOwned(ns, gs, c, d)
      ensures ChildId(ctx, ns, gs, a, b) == ChildId(ctx, ns, gs, c, d) ==> a == c
    {
      assert RootOwned(ns, gs, a, b) && RootOwned(ns, gs, c, d);
      if ChildId(ctx, ns, gs, a, b) == ChildId(ctx, ns, gs, c, d) {
        var o, o' := ChildOrigin(ns, gs, a, b), ChildOrigin(ns, gs, c, d);
        assert Occurs(ns, gs, o) && Occurs(ns, gs, o');
        assert o == o';
        if o.FromRoot? {
          assert gs[a].id == gs[c].id;
        } else {
          assert SameCheckout(ns, gs, a, b, c, d);
        }
      }
    }
  }

  /** Each root step writes exactly one catalog entry: the root's own workspace, linked to group and target. */
  lemma {:induction false} RootStepLinks(ctx: Ctx, ns: seq<NodeValue>, gs: seq<GroupValue>, j: nat, m: nat, w: Work, target: string)
    requires Shaped(ns, gs) && InRange(gs, j, m) && RootOwned(ns, gs, j, m) && Inv(ctx, ns, gs, j, m, w)
    ensures var key := ChildId(ctx, ns, gs, j, m);
            var after := RootStep(ctx, w, Gid(gs, j), target, Root(gs, j, m)).tables.descriptors;
            && key in after && after[key].parent == target && after[key].creator == Gid(gs, j)
            && after == w.tables.descriptors[key := after[key]]
  {
    var q := RootIndex(ns, gs, j, m);
    var ws := WsAt(ctx, ns, gs, j, m, q);
    assert At(w, ns, q, ws);
    WsMain(ctx, ns, gs, j, m, q);
    if ws != MAIN_WORKSPACE && Remapped(ns, gs, j, m, q) {
      assert !InWorktree(ns[q]);
    }
  }

  lemma {:induction false} LinksRootStep(ctx: Ctx, ns: seq<NodeValue>, gs: seq<GroupValue>, j: nat, m: nat, w: Work)
    requires Shaped(ns, gs) && ChildrenSeparated(ctx, ns, gs)
    requires InRange(gs, j, m) && Inv(ctx, ns, gs, j, m, w) && LinksInv(ctx, ns, gs, j, m, w)
    ensures LinksInv(ctx, ns, gs, j, m + 1, RootStep(ctx, w, Gid(gs, j), LoopTarget(ctx, ns, gs, j), Root(gs, j, m)))
  {
    assert RootOwned(ns, gs, j, m);
    RootStepLinks(ctx, ns, gs, j, m, w, LoopTarget(ctx, ns, gs, j));
    var w' := RootStep(ctx, w, Gid(gs, j), LoopTarget(ctx, ns, gs, j), Root(gs, j, m));
    forall a: nat, b: nat | InRange(gs, a, b) && Before(a, b, j, m + 1)
      ensures Linked(ctx, ns, gs, w'.tables.descriptors, a, b)
    {
      assert RootOwned(ns, gs, a, b);
      if Before(a, b, j, m) {
        assert Linked(ctx, ns, gs, w.tables.descriptors, a, b);
      }
    }
  }

  lemma {:induction false} LinksRoots(ctx: Ctx, ns: seq<NodeValue>, gs: seq<GroupValue>, j: nat, m: nat, w: Work)
    requires Shaped(ns, gs) && ChildrenSeparated(ctx, ns, gs)
    requires j < |gs| && m <= |gs[j].rootNodeIds.value|
    requires Inv(ctx, ns, gs, j, 0, w) && LinksInv(ctx, ns, gs, j, 0, w)
    ensures LinksInv(ctx, ns, gs, j, m,
                     AfterRoots(ctx, w, Gid(gs, j), LoopTarget(ctx, ns, gs, j), gs[j].rootNodeIds.value, m))
  {
    if m > 0 {
      var p, target, roots := m - 1, LoopTarget(ctx, ns, gs, j), gs[j].rootNodeIds.value;
      var v := AfterRoots(ctx, w, Gid(gs, j), target, roots, p);
      LinksRoots(ctx, ns, gs, j, p, w);
      InvRoots(ctx, ns, gs, j, p, w, target);
      LinksRootStep(ctx, ns, gs, j, p, v);
      assert AfterRoots(ctx, w, Gid(gs, j), target, roots, m) == RootStep(ctx, v, Gid(gs, j), target, Root(gs, j, p));
    }
  }

  lemma {:induction false} LinksGroups(ctx: Ctx, ns: seq<NodeValue>, gs: seq<GroupValue>, j: nat, w: Work)
    requires Shaped(ns, gs) && ChildrenSeparated(ctx, ns, gs)
    requires j <= |gs| && Inv(ctx, ns, gs, 0, 0, w)
    ensures LinksInv(ctx, ns, gs, j, 0, AfterGroups(ctx, w, gs, j))
  {
    if j > 0 {
      var p := j - 1;
      var v := AfterGroups(ctx, w, gs, p);
      LinksGroups(ctx, ns, gs, p, w);
      InvGroups(ctx, ns, gs, p, w);
      LinksGroupStep(ctx, ns, gs, p, v);
      assert AfterGroups(ctx, w, gs, j) == GroupStep(ctx, v, gs[p]);
    }
  }

  lemma {:induction false} LinksGroupStep(ctx: Ctx, ns: seq<NodeValue>, gs: seq<GroupValue>, j: nat, w: Work)
    requires Shaped(ns, gs) && ChildrenSeparated(ctx, ns, gs)
    requires j < |gs| && Inv(ctx, ns, gs, j, 0, w) && LinksInv(ctx, ns, gs, j, 0, w)
    ensures LinksInv(ctx, ns, gs, j + 1, 0, GroupStep(ctx, w, gs[j]))
  {
    var n := |gs[j].rootNodeIds.value|;
    TargetAt(ctx, ns, gs, j, w, j);
    LinksRoots(ctx, ns, gs, j, n, w);
    var w' := GroupStep(ctx, w, gs[j]);
    assert LinksInv(ctx, ns, gs, j, n, w');
    forall a: nat, b: nat | InRange(gs, a, b) && Before(a, b, j + 1, 0)
      ensures Linked(ctx, ns, gs, w'.tables.descriptors, a, b)
    {
      assert Before(a, b, j, n);
    }
  }
}
