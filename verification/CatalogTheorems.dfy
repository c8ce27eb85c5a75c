/**
 The main results about the v0.1 catalog migration: when it succeeds, and exactly when its result
 passes the topology validator.
 */
module CatalogTheorems {
  import opened Wrappers
  import opened Ordered
  import opened GraphModel
  import opened CatalogMigration
  import opened CatalogTopology

  /** A legacy graph with everything the migration reads, and unambiguous ids. */
  ghost predicate WellFormed(env: Env, v: GraphValue) {
    && Readable(v)
    && Shaped(v.nodes.value, v.groups.value)
    && CollisionFree(CtxOf(env, v), v.nodes.value, v.groups.value)
  }

  function NodeWorkspaces(v: GraphValue): seq<string>
    requires v.nodes.Some?
  {
    seq(|v.nodes.value|, i requires 0 <= i < |v.nodes.value| => v.nodes.value[i].place.workspaceId.GetOr(""))
  }

  function GroupLinksOf(g: GroupValue): GroupLinks {
    GroupLinks(g.id.GetOr(""), g.targetWorkspaceId.GetOr(""), g.childWorkspaceIds.GetOr([]))
  }

  function AllLinks(v: GraphValue): seq<GroupLinks>
    requires v.groups.Some?
  {
    seq(|v.groups.value|, i requires 0 <= i < |v.groups.value| => GroupLinksOf(v.groups.value[i]))
  }

  /** `validate_workspace_topology` on the JSON shape. */
  predicate PassesTopology(v: GraphValue) {
    && v.workspaces.Some? && v.nodes.Some? && v.groups.Some?
    && ValidTopology(v.workspaces.value, NodeWorkspaces(v), AllLinks(v))
  }

  // ---- The final maps ----

  lemma {:induction false} FinalInv(env: Env, v: GraphValue)
    requires Readable(v) && Shaped(v.nodes.value, v.groups.value)
    ensures Inv(CtxOf(env, v), v.nodes.value, v.groups.value, |v.groups.value|, 0, FinalWork(env, v))
  {
    var ctx, ns, gs := CtxOf(env, v), v.nodes.value, v.groups.value;
    InvStart(ctx, ns, gs);
    InvGroups(ctx, ns, gs, |gs|, Work(PlacedNodes(ctx, ns), AfterNodes(ctx, ns, |ns|)));
  }

  lemma {:induction false} FinalLinks(env: Env, v: GraphValue)
    requires Readable(v) && Shaped(v.nodes.value, v.groups.value)
    requires ChildrenSeparated(CtxOf(env, v), v.nodes.value, v.groups.value)
    ensures LinksInv(CtxOf(env, v), v.nodes.value, v.groups.value, |v.groups.value|, 0, FinalWork(env, v))
  {
    var ctx, ns, gs := CtxOf(env, v), v.nodes.value, v.groups.value;
    InvStart(ctx, ns, gs);
    LinksGroups(ctx, ns, gs, |gs|, Work(PlacedNodes(ctx, ns), AfterNodes(ctx, ns, |ns|)));
  }

  /** When every root was reached, its workspace is the one recorded for it. */
  lemma {:induction false} RootSettles(ctx: Ctx, ns: seq<NodeValue>, gs: seq<GroupValue>, a: nat, b: nat)
    requires Shaped(ns, gs) && InRange(gs, a, b) && RootOwned(ns, gs, a, b)
    ensures WsAt(ctx, ns, gs, |gs|, 0, RootIndex(ns, gs, a, b)) == ChildId(ctx, ns, gs, a, b)
    ensures ChildId(ctx, ns, gs, a, b) != MAIN_WORKSPACE
  {
    var q := RootIndex(ns, gs, a, b);
    LegacyIsNotMain(ctx, ChildOrigin(ns, gs, a, b));
    if InWorktree(ns[q]) {
      assert !Remapped(ns, gs, |gs|, 0, q);
    } else {
      assert Claim(ns, gs, a, b, q) && Before(a, b, |gs|, 0);
    }
  }

  /** A shaped graph always migrates: every root is found by the third pass. */
  lemma {:induction false} ShapedMigrates(env: Env, v: GraphValue)
    requires Readable(v) && Shaped(v.nodes.value, v.groups.value)
    ensures Migratable(env, v)
  {
    var ctx, ns, gs := CtxOf(env, v), v.nodes.value, v.groups.value;
    FinalInv(env, v);
    var w := FinalWork(env, v);
    forall a | 0 <= a < |gs| ensures RootsKnown(w.tables.ids, gs[a]) {
      forall b | 0 <= b < |gs[a].rootNodeIds.value| ensures gs[a].rootNodeIds.value[b] in w.tables.ids {
        assert InRange(gs, a, b);
        assert RootOwned(ns, gs, a, b);
        var q := RootIndex(ns, gs, a, b);
        assert At(w, ns, q, WsAt(ctx, ns, gs, |gs|, 0, q));
      }
    }
  }

  // ---- The catalog ----

  /** The catalog is the main workspace and one entry per key, in order. */
  ghost predicate Lists(ws: seq<Workspace>, keys: seq<string>) {
    && |ws| == |keys| + 1 && ws[0].id == MAIN_WORKSPACE
    && forall i :: 0 <= i < |keys| ==> ws[i + 1].id == keys[i] && keys[i] != MAIN_WORKSPACE
  }

  lemma {:induction false} CatalogLists(ctx: Ctx, descriptors: map<string, Descriptor>, statuses: map<string, string>,
                     createdAt: string, updatedAt: string)
    requires forall d :: d in descriptors ==> descriptors[d].id == d && IsLegacyId(d)
    ensures Lists(Catalog(ctx, descriptors, statuses, createdAt, updatedAt), SortedKeys(descriptors.Keys))
  {
    var keys := SortedKeys(descriptors.Keys);
    var ws := Catalog(ctx, descriptors, statuses, createdAt, updatedAt);
    assert MAIN_WORKSPACE[10] == 'm';
    forall i | 0 <= i < |keys| ensures ws[i + 1].id == keys[i] && keys[i] != MAIN_WORKSPACE {
      CatalogEntry(ctx, descriptors, statuses, createdAt, updatedAt, i);
      assert keys[i] in keys;
    }
  }

  lemma {:induction false} ListedIds(ws: seq<Workspace>, keys: seq<string>)
    requires Lists(ws, keys) && forall i, j :: 0 <= i < j < |keys| ==> keys[i] != keys[j]
    ensures forall i, j :: 0 <= i < j < |ws| ==> ws[i].id != ws[j].id
    ensures forall x :: Known(ws, x) <==> x == MAIN_WORKSPACE || x in keys
  {
    forall i, j | 0 <= i < j < |ws| ensures ws[i].id != ws[j].id {
      assert ws[j].id == keys[j - 1];
      assert i == 0 || ws[i].id == keys[i - 1];
    }
    forall x | x in keys ensures Known(ws, x) {
      var i :| 0 <= i < |keys| && keys[i] == x;
      assert ws[i + 1].id == x;
    }
    forall x | Known(ws, x) ensures x == MAIN_WORKSPACE || x in keys {
      var i :| 0 <= i < |ws| && ws[i].id == x;
      assert i == 0 || (keys[i - 1] == x && keys[i - 1] in keys);
    }
  }

  lemma {:induction false} CatalogFacts(ctx: Ctx, descriptors: map<string, Descriptor>, statuses: map<string, string>,
                     createdAt: string, updatedAt: string)
    requires forall d :: d in descriptors ==> descriptors[d].id == d && IsLegacyId(d)
    ensures var ws := Catalog(ctx, descriptors, statuses, createdAt, updatedAt);
      && (forall i, j :: 0 <= i < j < |ws| ==> ws[i].id != ws[j].id)
      && (forall x :: Known(ws, x) <==> x == MAIN_WORKSPACE || x in descriptors)
      && (forall x :: x in descriptors ==>
            FindWorkspace(ws, x) ==
            Some(LegacyWorkspace(ctx, descriptors[x], createdAt, updatedAt, Closed(statuses, descriptors[x].creator))))
  {
    var keys := SortedKeys(descriptors.Keys);
    var ws := Catalog(ctx, descriptors, statuses, createdAt, updatedAt);
    SortedDistinct(keys);
    CatalogLists(ctx, descriptors, statuses, createdAt, updatedAt);
    ListedIds(ws, keys);
    forall x | x in descriptors
      ensures FindWorkspace(ws, x) ==
              Some(LegacyWorkspace(ctx, descriptors[x], createdAt, updatedAt, Closed(statuses, descriptors[x].creator)))
    {
      assert x in keys;
      var i := FoundAt(ws, keys, x);
      CatalogEntry(ctx, descriptors, statuses, createdAt, updatedAt, i);
    }
  }

  lemma {:induction false} FoundAt(ws: seq<Workspace>, keys: seq<string>, x: string) returns (i: nat)
    requires Lists(ws, keys) && x in keys && forall a, b :: 0 <= a < b < |ws| ==> ws[a].id != ws[b].id
    ensures i < |keys| && keys[i] == x && FindWorkspace(ws, x) == Some(ws[i + 1])
  {
    i :| 0 <= i < |keys| && keys[i] == x;
    FindAt(ws, i + 1);
  }

  // ---- Topology, reduced to the links of the catalog ----

  /** Every root's catalog entry names the final target and the group. */
  ghost predicate LinksAgree(ctx: Ctx, ns: seq<NodeValue>, gs: seq<GroupValue>, descriptors: map<string, Descriptor>)
    requires Shaped(ns, gs)
  {
    forall a: nat, b: nat :: InRange(gs, a, b) ==> LinkAgrees(ctx, ns, gs, descriptors, a, b)
  }

  ghost predicate LinkAgrees(ctx: Ctx, ns: seq<NodeValue>, gs: seq<GroupValue>,
                             descriptors: map<string, Descriptor>, a: nat, b: nat)
    requires Shaped(ns, gs) && InRange(gs, a, b)
  {
    assert RootOwned(ns, gs, a, b);
    var key := ChildId(ctx, ns, gs, a, b);
    && key in descriptors
    && descriptors[key].parent == FinalTarget(ctx, ns, gs, a)
    && descriptors[key].creator == Gid(gs, a)
  }

  /** The links written into group `a`, in closed form. */
  lemma {:induction false} FinalGroupLinks(env: Env, v: GraphValue, a: nat)
    requires Readable(v) && Shaped(v.nodes.value, v.groups.value) && Migratable(env, v) && a < |v.groups.value|
    ensures
      var ctx, ns, gs := CtxOf(env, v), v.nodes.value, v.groups.value;
      var links := AllLinks(MigratedV01(env, v))[a];
      && links.id == Gid(gs, a)
      && links.target == FinalTarget(ctx, ns, gs, a)
      && |links.children| == |gs[a].rootNodeIds.value|
      && forall b :: 0 <= b < |links.children| ==> RootOwned(ns, gs, a, b) && links.children[b] == ChildId(ctx, ns, gs, a, b)
  {
    var ctx, ns, gs := CtxOf(env, v), v.nodes.value, v.groups.value;
    var w := FinalWork(env, v);
    FinalInv(env, v);
    TargetAt(ctx, ns, gs, |gs|, w, a);
    var links := AllLinks(MigratedV01(env, v))[a];
    assert links == GroupLinksOf(LinkedGroup(w.tables.ids, gs[a]));
    forall b | 0 <= b < |links.children|
      ensures RootOwned(ns, gs, a, b) && links.children[b] == ChildId(ctx, ns, gs, a, b)
    {
      assert InRange(gs, a, b);
      assert RootOwned(ns, gs, a, b);
      var q := RootIndex(ns, gs, a, b);
      RootSettles(ctx, ns, gs, a, b);
      assert At(w, ns, q, WsAt(ctx, ns, gs, |gs|, 0, q));
    }
  }

  lemma {:induction false} NodesAndTargetsKnown(env: Env, v: GraphValue)
    requires Readable(v) && Shaped(v.nodes.value, v.groups.value) && Migratable(env, v)
    ensures
      var m := MigratedV01(env, v);
      var ws := m.workspaces.value;
      && (forall i :: 0 <= i < |NodeWorkspaces(m)| ==> Known(ws, NodeWorkspaces(m)[i]))
      && (forall a :: 0 <= a < |AllLinks(m)| ==> Known(ws, AllLinks(m)[a].target))
      && (forall i, j :: 0 <= i < j < |ws| ==> ws[i].id != ws[j].id)
  {
    var ctx, ns, gs := CtxOf(env, v), v.nodes.value, v.groups.value;
    var w := FinalWork(env, v);
    var m := MigratedV01(env, v);
    FinalInv(env, v);
    CatalogFacts(ctx, w.tables.descriptors, GroupStatuses(gs, |gs|), v.run.value.startedAt.value, v.run.value.updatedAt.value);
    forall i | 0 <= i < |NodeWorkspaces(m)| ensures Known(m.workspaces.value, NodeWorkspaces(m)[i]) {
      assert At(w, ns, i, WsAt(ctx, ns, gs, |gs|, 0, i));
    }
    forall a | 0 <= a < |AllLinks(m)| ensures Known(m.workspaces.value, AllLinks(m)[a].target) {
      FinalGroupLinks(env, v, a);
      var c := Creator(ns, gs[a]);
      assert c < 0 || At(w, ns, c, WsAt(ctx, ns, gs, |gs|, 0, c));
    }
  }

  lemma {:induction false} ChildLookup(env: Env, v: GraphValue, a: nat, b: nat)
    requires Readable(v) && Shaped(v.nodes.value, v.groups.value) && Migratable(env, v)
    requires InRange(v.groups.value, a, b)
    ensures
      var m := MigratedV01(env, v);
      && b < |AllLinks(m)[a].children|
      && (ChildLinked(m.workspaces.value, AllLinks(m)[a], AllLinks(m)[a].children[b]) <==>
          LinkAgrees(CtxOf(env, v), v.nodes.value, v.groups.value, FinalWork(env, v).tables.descriptors, a, b))
  {
    var ctx, ns, gs := CtxOf(env, v), v.nodes.value, v.groups.value;
    var w := FinalWork(env, v);
    var m := MigratedV01(env, v);
    FinalInv(env, v);
    CatalogFacts(ctx, w.tables.descriptors, GroupStatuses(gs, |gs|), v.run.value.startedAt.value, v.run.value.updatedAt.value);
    FinalGroupLinks(env, v, a);
    assert RootOwned(ns, gs, a, b);
    var key := ChildId(ctx, ns, gs, a, b);
    RootSettles(ctx, ns, gs, a, b);
    var q := RootIndex(ns, gs, a, b);
    assert At(w, ns, q, WsAt(ctx, ns, gs, |gs|, 0, q));
    assert key in w.tables.descriptors;
  }

  /** The topology validator accepts the migrated graph exactly when every root's catalog entry is linked. */
  lemma {:induction false} TopologyIsLinks(env: Env, v: GraphValue)
    requires Readable(v) && Shaped(v.nodes.value, v.groups.value) && Migratable(env, v)
    ensures PassesTopology(MigratedV01(env, v)) <==>
            LinksAgree(CtxOf(env, v), v.nodes.value, v.groups.value, FinalWork(env, v).tables.descriptors)
  {
    var ctx, ns, gs := CtxOf(env, v), v.nodes.value, v.groups.value;
    var descriptors := FinalWork(env, v).tables.descriptors;
    var m := MigratedV01(env, v);
    NodesAndTargetsKnown(env, v);
    if PassesTopology(m) {
      forall a: nat, b: nat | InRange(gs, a, b) ensures LinkAgrees(ctx, ns, gs, descriptors, a, b) {
        ChildLookup(env, v, a, b);
      }
    }
    if LinksAgree(ctx, ns, gs, descriptors) {
      forall a, b | 0 <= a < |AllLinks(m)| && 0 <= b < |AllLinks(m)[a].children|
        ensures ChildLinked(m.workspaces.value, AllLinks(m)[a], AllLinks(m)[a].children[b])
      {
        FinalGroupLinks(env, v, a);
        assert InRange(gs, a, b);
        ChildLookup(env, v, a, b);
        assert LinkAgrees(ctx, ns, gs, descriptors, a, b);
      }
    }
  }

  // ---- The two targets of the two passes ----

  /** A settled creator: the loop-time target and the second-pass target agree. */
  lemma {:induction false} SettledTargetsAgree(ctx: Ctx, ns: seq<NodeValue>, gs: seq<GroupValue>, a: nat)
    requires Shaped(ns, gs) && CreatorsSettled(ns, gs) && a < |gs| && gs[a].rootNodeIds.value != []
    ensures LoopTarget(ctx, ns, gs, a) == FinalTarget(ctx, ns, gs, a)
  {
    var c := Creator(ns, gs[a]);
    if c >= 0 {
      if Remapped(ns, gs, a, 0, c) {
        var x: nat, y: nat :| Claim(ns, gs, x, y, c) && Before(x, y, a, 0);
        assert Before(x, y, |gs|, 0);
      }
      if Remapped(ns, gs, |gs|, 0, c) {
        var x: nat, y: nat :| Claim(ns, gs, x, y, c) && Before(x, y, |gs|, 0);
        assert Before(x, y, a, 0);
      }
    }
  }

  /** An unsettled creator: the two targets differ. */
  lemma {:induction false} UnsettledTargetsDiffer(ctx: Ctx, ns: seq<NodeValue>, gs: seq<GroupValue>, a: nat, x: nat, y: nat)
    requires Shaped(ns, gs) && CollisionFree(ctx, ns, gs) && a < |gs| && a <= x
    requires Creator(ns, gs[a]) >= 0 && Claim(ns, gs, x, y, Creator(ns, gs[a]))
    ensures LoopTarget(ctx, ns, gs, a) != FinalTarget(ctx, ns, gs, a)
  {
    var c := Creator(ns, gs[a]);
    if Remapped(ns, gs, a, 0, c) {
      var p: nat, r: nat :| Claim(ns, gs, p, r, c) && Before(p, r, a, 0);
      ClaimUnique(ns, gs, p, r, x, y, c);
    }
    assert Before(x, y, |gs|, 0);
    assert Remapped(ns, gs, |gs|, 0, c);
    var o := FromRoot(Gid(gs, x), Root(gs, x, y));
    assert Occurs(ns, gs, o);
    LegacyIsNotMain(ctx, o);
    if InWorktree(ns[c]) {
      assert Occurs(ns, gs, NodeOrigin(ns[c]));
    }
  }

  // ---- Main theorem ----

  lemma {:induction false} LinksImplySeparation(ctx: Ctx, ns: seq<NodeValue>, gs: seq<GroupValue>, descriptors: map<string, Descriptor>)
    requires Shaped(ns, gs) && LinksAgree(ctx, ns, gs, descriptors)
    ensures RootsSeparated(ns, gs)
  {
    forall a: nat, b: nat, c: nat, d: nat | InRange(gs, a, b) && InRange(gs, c, d)
      ensures SameCheckout(ns, gs, a, b, c, d) ==> a == c
    {
      assert RootOwned(ns, gs, a, b) && RootOwned(ns, gs, c, d);
      assert LinkAgrees(ctx, ns, gs, descriptors, a, b) && LinkAgrees(ctx, ns, gs, descriptors, c, d);
      if SameCheckout(ns, gs, a, b, c, d) {
        assert ChildId(ctx, ns, gs, a, b) == ChildId(ctx, ns, gs, c, d);
        assert gs[a].id == gs[c].id;
      }
    }
  }

  lemma {:induction false} LinksImplySettled(env: Env, v: GraphValue)
    requires WellFormed(env, v) && Migratable(env, v)
    requires LinksAgree(CtxOf(env, v), v.nodes.value, v.groups.value, FinalWork(env, v).tables.descriptors)
    requires RootsSeparated(v.nodes.value, v.groups.value)
    ensures CreatorsSettled(v.nodes.value, v.groups.value)
  {
    var ctx, ns, gs := CtxOf(env, v), v.nodes.value, v.groups.value;
    var descriptors := FinalWork(env, v).tables.descriptors;
    SeparationTransfers(ctx, ns, gs);
    FinalLinks(env, v);
    forall a: nat, x: nat, y: nat |
      a < |gs| && gs[a].rootNodeIds.value != [] && Creator(ns, gs[a]) >= 0 && a <= x
      ensures !Claim(ns, gs, x, y, Creator(ns, gs[a]))
    {
      assert InRange(gs, a, 0);
      assert LinkAgrees(ctx, ns, gs, descriptors, a, 0);
      assert Before(a, 0, |gs|, 0);
      assert Linked(ctx, ns, gs, descriptors, a, 0);
      if Claim(ns, gs, x, y, Creator(ns, gs[a])) {
        UnsettledTargetsDiffer(ctx, ns, gs, a, x, y);
      }
    }
  }

  /**
   The migrated graph passes the topology validator if and only if worktree roots of different groups
   have different checkouts and no group's creator is moved by that group or a later one.
   */
  lemma {:induction false} TopologyIff(env: Env, v: GraphValue)
    requires WellFormed(env, v)
    ensures Migratable(env, v)
    ensures PassesTopology(MigratedV01(env, v)) <==>
            RootsSeparated(v.nodes.value, v.groups.value) && CreatorsSettled(v.nodes.value, v.groups.value)
  {
    var ctx, ns, gs := CtxOf(env, v), v.nodes.value, v.groups.value;
    var descriptors := FinalWork(env, v).tables.descriptors;
    ShapedMigrates(env, v);
    TopologyIsLinks(env, v);
    if RootsSeparated(ns, gs) && CreatorsSettled(ns, gs) {
      SeparationTransfers(ctx, ns, gs);
      FinalLinks(env, v);
      forall a: nat, b: nat | InRange(gs, a, b) ensures LinkAgrees(ctx, ns, gs, descriptors, a, b) {
        assert Before(a, b, |gs|, 0);
        assert Linked(ctx, ns, gs, descriptors, a, b);
        SettledTargetsAgree(ctx, ns, gs, a);
      }
    }
    if LinksAgree(ctx, ns, gs, descriptors) {
      LinksImplySeparation(ctx, ns, gs, descriptors);
      LinksImplySettled(env, v);
    }
  }

  /** No group comes before, or is, the group its creator belongs to: then every creator is settled. */
  lemma {:induction false} EarlierCreatorsSettle(ns: seq<NodeValue>, gs: seq<GroupValue>)
    requires AllReadable(gs)
    requires forall a, x :: 0 <= a <= x < |gs| && Creator(ns, gs[a]) >= 0 ==>
      ns[Creator(ns, gs[a])].place.groupId != Some(Gid(gs, x))
    ensures CreatorsSettled(ns, gs)
  {
  }

  // ---- When identities do not collide ----

  lemma {:induction false} CancelPrefix(p: string, x: string, y: string)
    requires p + x == p + y
    ensures x == y
  {
    assert (p + x)[|p|..] == x && (p + y)[|p|..] == y;
  }

  function UntilColon(s: string): string {
    if s == [] || s[0] == ':' then [] else [s[0]] + UntilColon(s[1..])
  }

  lemma {:induction false} UntilColonOf(g: string, rest: string)
    requires ':' !in g
    ensures UntilColon(g + ":" + rest) == g
  {
    if g != [] {
      assert (g + ":" + rest)[1..] == g[1..] + ":" + rest;
      UntilColonOf(g[1..], rest);
    }
  }

  lemma {:induction false} FirstColon(g: string, r: string, h: string, t: string)
    requires ':' !in g && ':' !in h && g + ":root:" + r == h + ":root:" + t
    ensures g == h && r == t
  {
    assert g + ":root:" + r == g + ":" + ("root:" + r);
    assert h + ":root:" + t == h + ":" + ("root:" + t);
    UntilColonOf(g, "root:" + r);
    UntilColonOf(h, "root:" + t);
    CancelPrefix(g + ":root:", r, t);
  }

  lemma {:induction false} IdentityInjective(a: Origin, b: Origin)
    requires Identity(a) == Identity(b)
    requires a.FromRoot? ==> ':' !in a.group
    requires b.FromRoot? ==> ':' !in b.group
    ensures a == b
  {
    assert Identity(a)[0] == (match a case FromPath(_) => 'p' case FromNode(_) => 'n' case FromRoot(_, _) => 'g');
    assert Identity(b)[0] == (match b case FromPath(_) => 'p' case FromNode(_) => 'n' case FromRoot(_, _) => 'g');
    match a {
      case FromPath(path) => CancelPrefix("path:", path, b.path);
      case FromNode(node) => CancelPrefix("node:", node, b.node);
      case FromRoot(group, root) =>
        assert Identity(a) == "group:" + (group + ":root:" + root);
        assert Identity(b) == "group:" + (b.group + ":root:" + b.root);
        CancelPrefix("group:", group + ":root:" + root, b.group + ":root:" + b.root);
        FirstColon(group, root, b.group, b.root);
    }
  }

  /** A workspace id determines its identity if the digest separates the two at hand. */
  lemma {:induction false} SeparatedIds(ctx: Ctx, a: Origin, b: Origin)
    requires IdOf(ctx, a) == IdOf(ctx, b)
    requires ctx.env.digest(ctx.runId + ":" + Identity(a)) == ctx.env.digest(ctx.runId + ":" + Identity(b)) ==>
             Identity(a) == Identity(b)
    requires a.FromRoot? ==> ':' !in a.group
    requires b.FromRoot? ==> ':' !in b.group
    ensures a == b
  {
    CancelPrefix("workspace-legacy-", ctx.env.digest(ctx.runId + ":" + Identity(a)),
                 ctx.env.digest(ctx.runId + ":" + Identity(b)));
    IdentityInjective(a, b);
  }

  ghost predicate DigestSeparates(ctx: Ctx, ns: seq<NodeValue>, gs: seq<GroupValue>)
    requires AllNamed(ns) && AllReadable(gs)
  {
    forall a, b :: Occurs(ns, gs, a) && Occurs(ns, gs, b) ==>
      ctx.env.digest(ctx.runId + ":" + Identity(a)) == ctx.env.digest(ctx.runId + ":" + Identity(b)) ==>
      Identity(a) == Identity(b)
  }

  lemma {:induction false} OccurringGroup(ns: seq<NodeValue>, gs: seq<GroupValue>, o: Origin)
    requires AllNamed(ns) && AllReadable(gs) && Occurs(ns, gs, o) && o.FromRoot?
    ensures exists j :: 0 <= j < |gs| && Gid(gs, j) == o.group
  {
    var j: nat, m: nat :| InRange(gs, j, m) && o == FromRoot(Gid(gs, j), Root(gs, j, m));
    assert Gid(gs, j) == o.group;
  }

  /** Group ids without colons and a digest that separates the identities at hand exclude every collision. */
  lemma {:induction false} NoCollisions(ctx: Ctx, ns: seq<NodeValue>, gs: seq<GroupValue>)
    requires AllNamed(ns) && AllReadable(gs) && DigestSeparates(ctx, ns, gs)
    requires forall j :: 0 <= j < |gs| ==> ':' !in Gid(gs, j)
    ensures CollisionFree(ctx, ns, gs)
  {
    forall a, b | Occurs(ns, gs, a) && Occurs(ns, gs, b) && IdOf(ctx, a) == IdOf(ctx, b) ensures a == b {
      if a.FromRoot? {
        OccurringGroup(ns, gs, a);
      }
      if b.FromRoot? {
        OccurringGroup(ns, gs, b);
      }
      SeparatedIds(ctx, a, b);
    }
  }

  // ---- A graph that fails ----

  function MainCheckoutNode(id: string, group: string): NodeValue {
    NodeValue(Some(id), Some("pending"), Placement(Some(group), Some(id), None, None, None),
              ExecFields(None, None, None, None, None, None), None, None, None,
              NodeRest(VERSION, "run", "title", "task", false, false, false, ""))
  }

  function OneRootGroup(id: string, creator: string, root: string): GroupValue {
    GroupValue(Some(id), Some("open"), Some(creator), Some([root]), None, None, GroupRest(VERSION, None, ""))
  }

  /** Group "g" was created by the root of group "h", which comes after it. */
  function LateCreator(): GraphValue {
    GraphValue(Some(LEGACY),
               Some(RunValue(Some("run"), Some("running"), Some("t0"), Some("t1"), Some([]),
                             RunRest(VERSION, "parent", false, false, false, ""))),
               Some([MainCheckoutNode("a", "g"), MainCheckoutNode("b", "h")]),
               Some([OneRootGroup("g", "b", "a"), OneRootGroup("h", "planner", "b")]), None, "")
  }

  lemma {:induction false} IndexOfTwo(x: NodeValue, y: NodeValue, id: string)
    ensures IndexOf([x, y], id) == if y.id == Some(id) then 1 else if x.id == Some(id) then 0 else -1
  {
    assert [x, y][..1] == [x] && [x][..0] == [];
  }

  lemma {:induction false} LateCreatorShaped()
    ensures Shaped(LateCreator().nodes.value, LateCreator().groups.value)
    ensures !CreatorsSettled(LateCreator().nodes.value, LateCreator().groups.value)
  {
    var x, y := MainCheckoutNode("a", "g"), MainCheckoutNode("b", "h");
    var ns, gs := [x, y], [OneRootGroup("g", "b", "a"), OneRootGroup("h", "planner", "b")];
    IndexOfTwo(x, y, "a");
    IndexOfTwo(x, y, "b");
    forall j: nat, m: nat | InRange(gs, j, m) ensures RootOwned(ns, gs, j, m) {
      assert m == 0 && (j == 0 || j == 1);
    }
    assert Claim(ns, gs, 1, 0, Creator(ns, gs[0]));
  }

  lemma {:induction false} PlainDigestSeparates(ctx: Ctx, ns: seq<NodeValue>, gs: seq<GroupValue>)
    requires AllNamed(ns) && AllReadable(gs) && forall x :: ctx.env.digest(x) == x
    ensures DigestSeparates(ctx, ns, gs)
  {
    forall a, b | ctx.runId + ":" + Identity(a) == ctx.runId + ":" + Identity(b) ensures Identity(a) == Identity(b) {
      CancelPrefix(ctx.runId + ":", Identity(a), Identity(b));
    }
  }

  function PlainEnv(): Env {
    Env("/repo", text => text, directory => Some("head"), directory => None, path => false)
  }

  lemma {:induction false} LateCreatorWellFormed()
    ensures WellFormed(PlainEnv(), LateCreator())
  {
    LateCreatorShaped();
    var ctx, ns, gs := CtxOf(PlainEnv(), LateCreator()), LateCreator().nodes.value, LateCreator().groups.value;
    PlainDigestSeparates(ctx, ns, gs);
    assert Gid(gs, 0) == "g" && Gid(gs, 1) == "h";
    NoCollisions(ctx, ns, gs);
  }

  /** A moved creator occurs: this well-formed graph is migrated to one that the validator rejects. */
  lemma {:induction false} LateCreatorRejected()
    ensures WellFormed(PlainEnv(), LateCreator()) && Migratable(PlainEnv(), LateCreator())
    ensures !PassesTopology(MigratedV01(PlainEnv(), LateCreator()))
  {
    LateCreatorShaped();
    LateCreatorWellFormed();
    TopologyIff(PlainEnv(), LateCreator());
  }
}
