/**
 End to end: which v0.1 graphs load. Every other demand of the decoder and the validators being met,
 the answer is exactly the condition on roots and creators of `CatalogTheorems`.
 */
module LegacyLoading {
  import opened Wrappers
  import opened Text
  import opened Ordered
  import opened LeafLifecycle
  import opened GraphModel
  import opened CatalogMigration
  import opened CatalogTopology
  import opened CatalogTheorems
  import opened LeafMigration
  import opened GraphLoading

  // ---- What the other validators ask of a legacy graph ----

  /** Git answers with trimmed, non-empty text, and the repository has a path. */
  ghost predicate EnvFit(env: Env) {
    && env.repoRoot != ""
    && (forall p :: env.head(p).Some? ==> !Blank(env.head(p).value))
    && (forall p :: env.branch(p).Some? && env.branch(p).value != "" ==> !Blank(env.branch(p).value))
  }

  predicate RestFit(n: NodeValue)
    requires n.status.Some?
  {
    var rest := n.rest;
    && rest.version == VERSION
    && !Blank(rest.dynamicRunId) && !Blank(rest.title) && !Blank(rest.task)
    && (n.status.value == "completed" <==> rest.hasOutcome)
    && (n.status.value == "paused" || (!rest.hasPauseReason && !rest.hasRuntimeError))
    && (rest.hasRuntimeError ==> rest.hasPauseReason)
  }

  predicate NodeFit(info: RunInfo, n: NodeValue) {
    && IsV02Leaf(n) && WellDated(info, n) && RestFit(n)
    && n.place.chainId.Some? && n.storageVersion.GetOr(0) <= U32_MAX
  }

  predicate GroupFit(g: GroupValue) {
    && GroupError(g).None? && g.status.Some? && KnownGroupStatus(g.status.value) && g.createdByNodeId.Some?
    && g.rootNodeIds.value != [] && g.rest.version == VERSION
    && (g.rest.parentGroupId.Some? ==>
          !Blank(g.rest.parentGroupId.value) && g.rest.parentGroupId.value != g.id.value)
  }

  ghost predicate Fit(env: Env, v: GraphValue)
    requires Readable(v)
  {
    && EnvFit(env)
    && v.version == Some(LEGACY) && !HasCatalog(v)
    && DecodableRun(v.run.value) && ValidRun(DecodeRun(v.run.value))
    && (forall i :: 0 <= i < |v.nodes.value| ==> NodeFit(RunInfoOf(v), v.nodes.value[i]))
    && (forall i :: 0 <= i < |v.groups.value| ==> GroupFit(v.groups.value[i]))
  }

  // ---- Workspace ids and descriptors are never blank ----

  lemma {:induction false} NotBlankAt(s: string, i: nat)
    requires i < |s| && !IsWhitespace(s[i])
    ensures !Blank(s)
  {
    if i > 0 {
      NotBlankAt(s[1..], i - 1);
    }
  }

  lemma {:induction false} WorkspaceIdNotBlank(id: string)
    requires id == MAIN_WORKSPACE || IsLegacyId(id)
    ensures !Blank(id)
  {
    assert MAIN_WORKSPACE[10] == 'm';
    NotBlankAt(id, 10);
  }

  predicate WorkspaceId(id: string) {
    id == MAIN_WORKSPACE || IsLegacyId(id)
  }

  predicate SaneDescriptor(d: Descriptor) {
    d.path != "" && WorkspaceId(d.parent)
  }

  predicate SaneIds(ids: map<string, string>) {
    forall x :: x in ids ==> WorkspaceId(ids[x])
  }

  predicate Sane(t: Tables) {
    && SaneIds(t.ids)
    && (forall k :: k in t.descriptors ==> SaneDescriptor(t.descriptors[k]))
  }

  lemma {:induction false} LegacyPathNotEmpty(env: Env, id: string)
    ensures LegacyPath(env, id) != ""
  {
    assert |LegacyPath(env, id)| >= |Join(env.repoRoot, ".sasuke/legacy-workspaces")|;
    assert |Join(env.repoRoot, ".sasuke/legacy-workspaces")| >= |".sasuke/legacy-workspaces"|;
  }

  lemma {:induction false} NodeStepSane(ctx: Ctx, t: Tables, n: NodeValue)
    requires Named(n) && Sane(t)
    ensures Sane(NodeStep(ctx, t, n))
  {
    if InWorktree(n) {
      IdOfIsLegacy(ctx, NodeOrigin(n));
      LegacyPathNotEmpty(ctx.env, InitialId(ctx, n));
    }
  }

  lemma {:induction false} AfterNodesSane(ctx: Ctx, ns: seq<NodeValue>, k: nat)
    requires k <= |ns| && AllNamed(ns)
    ensures Sane(AfterNodes(ctx, ns, k))
  {
    if k > 0 {
      AfterNodesSane(ctx, ns, k - 1);
      NodeStepSane(ctx, AfterNodes(ctx, ns, k - 1), ns[k - 1]);
    }
  }

  lemma {:induction false} RemapIdsSane(nodes: seq<NodeValue>, group: string, root: string, ws: string,
                                        ids: map<string, string>, k: nat)
    requires k <= |nodes| && WorkspaceId(ws) && SaneIds(ids)
    ensures SaneIds(RemapIds(nodes, group, root, ws, ids, k))
  {
    if k > 0 {
      RemapIdsSane(nodes, group, root, ws, ids, k - 1);
      var before := RemapIds(nodes, group, root, ws, ids, k - 1);
      if InChain(nodes[k - 1], group, root) {
        assert SaneIds(before[nodes[k - 1].id.value := ws]);
      }
    }
  }

  lemma {:induction false} RootStepSane(ctx: Ctx, w: Work, group: string, target: string, root: string)
    requires Sane(w.tables) && WorkspaceId(target)
    ensures Sane(RootStep(ctx, w, group, target, root).tables)
  {
    var o := FromRoot(group, root);
    IdOfIsLegacy(ctx, o);
    LegacyPathNotEmpty(ctx.env, IdOf(ctx, o));
    RemapIdsSane(w.nodes, group, root, IdOf(ctx, o), w.tables.ids, |w.nodes|);
  }

  lemma {:induction false} AfterRootsSane(ctx: Ctx, w: Work, group: string, target: string, roots: seq<string>, m: nat)
    requires m <= |roots| && Sane(w.tables) && WorkspaceId(target)
    ensures Sane(AfterRoots(ctx, w, group, target, roots, m).tables)
  {
    if m > 0 {
      AfterRootsSane(ctx, w, group, target, roots, m - 1);
      RootStepSane(ctx, AfterRoots(ctx, w, group, target, roots, m - 1), group, target, roots[m - 1]);
    }
  }

  lemma {:induction false} AfterGroupsSane(ctx: Ctx, w: Work, gs: seq<GroupValue>, j: nat)
    requires j <= |gs| && AllReadable(gs) && Sane(w.tables)
    ensures Sane(AfterGroups(ctx, w, gs, j).tables)
  {
    if j > 0 {
      AfterGroupsSane(ctx, w, gs, j - 1);
      var v := AfterGroups(ctx, w, gs, j - 1);
      var g := gs[j - 1];
      AfterRootsSane(ctx, v, g.id.value, Target(v.tables.ids, g), g.rootNodeIds.value, |g.rootNodeIds.value|);
    }
  }

  lemma {:induction false} FinalSane(env: Env, v: GraphValue)
    requires Readable(v)
    ensures Sane(FinalWork(env, v).tables)
  {
    var ctx, ns := CtxOf(env, v), v.nodes.value;
    AfterNodesSane(ctx, ns, |ns|);
    AfterGroupsSane(ctx, Work(PlacedNodes(ctx, ns), AfterNodes(ctx, ns, |ns|)), v.groups.value, |v.groups.value|);
  }

  // ---- Each validator on its own ----

  lemma {:induction false} LegacyWorkspaceValid(ctx: Ctx, d: Descriptor, createdAt: string, updatedAt: string, closed: bool)
    requires EnvFit(ctx.env) && !Blank(ctx.runId) && SaneDescriptor(d) && IsLegacyId(d.id)
    ensures ValidWorkspace(LegacyWorkspace(ctx, d, createdAt, updatedAt, closed))
  {
    WorkspaceIdNotBlank(d.id);
    WorkspaceIdNotBlank(d.parent);
    NotBlankAt(UNKNOWN_HEAD, 0);
    NotBlankAt("legacy/" + d.id, 0);
  }

  /** Every workspace the migration catalogues passes `validate_workspace_state`. */
  lemma {:induction false} CatalogValid(env: Env, v: GraphValue)
    requires Readable(v) && Shaped(v.nodes.value, v.groups.value) && Migratable(env, v) && EnvFit(env)
    ensures var ws := MigratedV01(env, v).workspaces.value;
            forall i :: 0 <= i < |ws| ==> ValidWorkspace(ws[i])
  {
    var ctx, w := CtxOf(env, v), FinalWork(env, v);
    var ws := MigratedV01(env, v).workspaces.value;
    var keys := SortedKeys(w.tables.descriptors.Keys);
    FinalSane(env, v);
    FinalInv(env, v);
    WorkspaceIdNotBlank(MAIN_WORKSPACE);
    NotBlankAt(UNKNOWN_HEAD, 0);
    forall i | 0 <= i < |ws| ensures ValidWorkspace(ws[i]) {
      if i > 0 {
        var k := keys[i - 1];
        assert k in keys;
        var d := w.tables.descriptors[k];
        LegacyWorkspaceValid(ctx, d, v.run.value.startedAt.value, v.run.value.updatedAt.value,
                             Closed(GroupStatuses(v.groups.value, |v.groups.value|), d.creator));
      }
    }
  }

  function LoadedNode(info: RunInfo, n: NodeValue, ws: string): NodeValue
    requires LeafReadable(n)
  {
    LeafV03(LeafV02(info, Placed(n, ws)))
  }

  lemma {:induction false} NodeValid(info: RunInfo, n: NodeValue, ws: string)
    requires NodeFit(info, n) && WorkspaceId(ws)
    ensures Decodable(LoadedNode(info, n, ws)) && ValidNode(DecodeNode(LoadedNode(info, n, ws)))
    ensures DecodeNode(LoadedNode(info, n, ws)).workspaceId == ws
  {
    var loaded := LoadedNode(info, n, ws);
    var leaf := LeafV02(info, n).exec;
    assert LeafV02(info, Placed(n, ws)).exec == leaf;
    assert leaf.phase.Some? ==> ParsePhase(leaf.phase.value).Some?;
    LeafValidIff(info, n);
    WorkspaceIdNotBlank(ws);
    assert DecodeExec(loaded.exec) == MigratedLeaf(info, n);
  }

  lemma {:induction false} GroupValid(ids: map<string, string>, g: GroupValue)
    requires GroupFit(g) && RootsKnown(ids, g) && SaneIds(ids)
    ensures DecodableGroup(LinkedGroup(ids, g)) && ValidGroup(DecodeGroup(LinkedGroup(ids, g)))
  {
    WorkspaceIdNotBlank(Target(ids, g));
  }

  // ---- The pipeline ----

  /** What `Upgrade` makes of a legacy graph that migrates. */
  lemma {:induction false} UpgradedShape(env: Env, v: GraphValue)
    requires Readable(v) && Shaped(v.nodes.value, v.groups.value) && Migratable(env, v)
    requires v.version == Some(LEGACY) && !HasCatalog(v)
    requires forall i :: 0 <= i < |v.nodes.value| ==> LeafReadable(v.nodes.value[i])
    ensures Upgrade(env, v).Some? && Upgrade(env, v).value.1
    ensures var m, u := MigratedV01(env, v), Upgrade(env, v).value.0;
      && u.version == Some(CURRENT) && u.run == v.run && u.groups == m.groups && u.workspaces == m.workspaces
      && u.nodes.Some? && |u.nodes.value| == |v.nodes.value| == |NodeWorkspaces(m)|
      && forall i :: 0 <= i < |u.nodes.value| ==>
           && WorkspaceId(NodeWorkspaces(m)[i])
           && u.nodes.value[i] == LoadedNode(RunInfoOf(v), v.nodes.value[i], NodeWorkspaces(m)[i])
  {
    var ctx, ns, gs := CtxOf(env, v), v.nodes.value, v.groups.value;
    var w, m := FinalWork(env, v), MigratedV01(env, v);
    FinalInv(env, v);
    FinalSane(env, v);
    forall i | 0 <= i < |ns|
      ensures WorkspaceId(NodeWorkspaces(m)[i])
      ensures m.nodes.value[i] == Placed(ns[i], NodeWorkspaces(m)[i]) && LeafReadable(m.nodes.value[i])
    {
      assert At(w, ns, i, WsAt(ctx, ns, gs, |gs|, 0, i));
    }
    assert MigratableV02(m);
    assert RunInfoOf(m) == RunInfoOf(v);
    assert Upgrade(env, v) == Some((MigratedV03(MigratedV02(m)), true));
  }

  lemma {:induction false} NodesValid(env: Env, v: GraphValue)
    requires Readable(v) && Shaped(v.nodes.value, v.groups.value) && Migratable(env, v) && Fit(env, v)
    ensures Upgrade(env, v).Some?
    ensures var m, u := MigratedV01(env, v), Upgrade(env, v).value.0;
      && u.nodes.Some? && |u.nodes.value| == |NodeWorkspaces(m)|
      && forall i :: 0 <= i < |u.nodes.value| ==>
           && Decodable(u.nodes.value[i]) && ValidNode(DecodeNode(u.nodes.value[i]))
           && DecodeNode(u.nodes.value[i]).workspaceId == NodeWorkspaces(m)[i]
  {
    UpgradedShape(env, v);
    var m, u := MigratedV01(env, v), Upgrade(env, v).value.0;
    forall i | 0 <= i < |u.nodes.value|
      ensures Decodable(u.nodes.value[i]) && ValidNode(DecodeNode(u.nodes.value[i]))
      ensures DecodeNode(u.nodes.value[i]).workspaceId == NodeWorkspaces(m)[i]
    {
      NodeValid(RunInfoOf(v), v.nodes.value[i], NodeWorkspaces(m)[i]);
    }
  }

  lemma {:induction false} GroupsValid(env: Env, v: GraphValue)
    requires Readable(v) && Migratable(env, v) && Fit(env, v)
    ensures var m := MigratedV01(env, v);
      forall i :: 0 <= i < |m.groups.value| ==>
        && DecodableGroup(m.groups.value[i]) && ValidGroup(DecodeGroup(m.groups.value[i]))
        && Links(DecodeGroup(m.groups.value[i])) == AllLinks(m)[i]
  {
    FinalSane(env, v);
    var m := MigratedV01(env, v);
    forall i | 0 <= i < |m.groups.value|
      ensures DecodableGroup(m.groups.value[i]) && ValidGroup(DecodeGroup(m.groups.value[i]))
      ensures Links(DecodeGroup(m.groups.value[i])) == AllLinks(m)[i]
    {
      GroupValid(FinalWork(env, v).tables.ids, v.groups.value[i]);
    }
  }

  /** With every other demand met, loading comes down to the topology of the migrated catalog. */
  lemma {:induction false} LoadsIffTopology(env: Env, v: GraphValue)
    requires Readable(v) && Shaped(v.nodes.value, v.groups.value) && Migratable(env, v) && Fit(env, v)
    ensures FromValue(env, v).Some? <==> PassesTopology(MigratedV01(env, v))
    ensures FromValue(env, v).Some? ==> FromValue(env, v).value.1 && ValidGraph(FromValue(env, v).value.0)
  {
    UpgradedShape(env, v);
    CatalogValid(env, v);
    NodesValid(env, v);
    GroupsValid(env, v);
    var m, u := MigratedV01(env, v), Upgrade(env, v).value.0;
    ValidIffTopology(u, NodeWorkspaces(m), AllLinks(m));
  }

  lemma {:induction false} ValidIffTopology(u: GraphValue, nodeWorkspaces: seq<string>, links: seq<GroupLinks>)
    requires u.version == Some(CURRENT) && u.run.Some? && DecodableRun(u.run.value) && ValidRun(DecodeRun(u.run.value))
    requires u.nodes.Some? && |u.nodes.value| == |nodeWorkspaces|
    requires forall i :: 0 <= i < |u.nodes.value| ==>
      && Decodable(u.nodes.value[i]) && ValidNode(DecodeNode(u.nodes.value[i]))
      && DecodeNode(u.nodes.value[i]).workspaceId == nodeWorkspaces[i]
    requires u.groups.Some? && |u.groups.value| == |links|
    requires forall i :: 0 <= i < |u.groups.value| ==>
      && DecodableGroup(u.groups.value[i]) && ValidGroup(DecodeGroup(u.groups.value[i]))
      && Links(DecodeGroup(u.groups.value[i])) == links[i]
    requires u.workspaces.Some? && forall i :: 0 <= i < |u.workspaces.value| ==> ValidWorkspace(u.workspaces.value[i])
    ensures DecodableGraph(u)
    ensures ValidGraph(DecodeGraph(u)) <==> ValidTopology(u.workspaces.value, nodeWorkspaces, links)
  {
    var g := DecodeGraph(u);
    assert seq(|g.nodes|, i requires 0 <= i < |g.nodes| => g.nodes[i].workspaceId) == nodeWorkspaces;
    assert seq(|g.groups|, i requires 0 <= i < |g.groups| => Links(g.groups[i])) == links;
  }

  /**
   A well-formed v0.1 graph whose other fields are in order loads if and only if worktree roots of
   different groups have different checkouts and no group's creator is moved by that group or a later one.
   */
  lemma {:induction false} LegacyGraphLoadsIff(env: Env, v: GraphValue)
    requires WellFormed(env, v) && Fit(env, v)
    ensures FromValue(env, v).Some? <==>
            RootsSeparated(v.nodes.value, v.groups.value) && CreatorsSettled(v.nodes.value, v.groups.value)
    ensures FromValue(env, v).Some? ==> FromValue(env, v).value.1 && ValidGraph(FromValue(env, v).value.0)
  {
    TopologyIff(env, v);
    LoadsIffTopology(env, v);
  }
}
