/**
 The graph document that storage migrates in place (src/dynamic_store.rs). Every method is proved
 against the specification functions of `CatalogMigration` and `LeafMigration`.
 */
module GraphDocument {
  import opened Wrappers
  import opened Ordered
  import opened GraphModel
  import opened CatalogMigration
  import opened LeafMigration

  /** Groups that were not reached yet do not influence the second pass. */
  lemma {:induction false} AfterGroupsPrefix(ctx: Ctx, w: Work, a: seq<GroupValue>, b: seq<GroupValue>, j: nat)
    requires AllReadable(a) && AllReadable(b) && j <= |a| && j <= |b| && a[..j] == b[..j]
    ensures AfterGroups(ctx, w, a, j) == AfterGroups(ctx, w, b, j)
  {
    if j > 0 {
      assert a[j - 1] == a[..j][j - 1] == b[..j][j - 1] == b[j - 1];
      assert a[..j - 1] == a[..j][..j - 1] == b[..j][..j - 1] == b[..j - 1];
      AfterGroupsPrefix(ctx, w, a, b, j - 1);
    }
  }

  lemma {:induction false} TakeNext<T>(s: seq<T>, n: nat)
    requires n < |s|
    ensures s[..n + 1] == s[..n] + [s[n]]
  {
  }

  /** The first pass after `k` nodes: those are placed and recorded, the others as they were. */
  ghost predicate Placing(ctx: Ctx, ns: seq<NodeValue>, now: seq<NodeValue>, t: Tables, k: nat) {
    && k <= |ns| == |now| && (forall i :: 0 <= i < k ==> Named(ns[i]))
    && t == AfterNodes(ctx, ns, k)
    && (forall i :: 0 <= i < k ==> now[i] == PlaceNode(ctx, ns[i]))
    && (forall i :: k <= i < |ns| ==> now[i] == ns[i])
  }

  lemma {:induction false} PlacingStep(ctx: Ctx, ns: seq<NodeValue>, now: seq<NodeValue>, t: Tables, k: nat)
    requires k < |ns| && Placing(ctx, ns, now, t, k) && Named(ns[k])
    ensures Placing(ctx, ns, now[k := PlaceNode(ctx, ns[k])], NodeStep(ctx, t, ns[k]), k + 1)
  {
    var next := k + 1;
    assert AfterNodes(ctx, ns, next) == NodeStep(ctx, AfterNodes(ctx, ns, k), ns[k]);
  }

  lemma {:induction false} AllPlaced(ctx: Ctx, ns: seq<NodeValue>, now: seq<NodeValue>, t: Tables)
    requires Placing(ctx, ns, now, t, |ns|)
    ensures AllNamed(ns) && t == AfterNodes(ctx, ns, |ns|) && now == PlacedNodes(ctx, ns)
  {
  }

  class Document {
    var version: Option<string>
    var run: Option<RunValue>
    var nodes: array?<NodeValue>
    var groups: array?<GroupValue>
    var workspaces: Option<seq<Workspace>>
    var proposals: string

    /** The JSON value this document holds; a missing array is `null`. */
    function View(): GraphValue
      reads this, nodes, groups
    {
      GraphValue(version, run,
                 if nodes == null then None else Some(nodes[..]),
                 if groups == null then None else Some(groups[..]),
                 workspaces, proposals)
    }

    constructor (v: GraphValue)
      ensures View() == v
      ensures (nodes != null ==> fresh(nodes)) && (groups != null ==> fresh(groups))
    {
      version, run, workspaces, proposals := v.version, v.run, v.workspaces, v.proposals;
      nodes, groups := null, null;
      new;
      if v.nodes.Some? {
        var ns := v.nodes.value;
        nodes := new NodeValue[|ns|](i requires 0 <= i < |ns| => ns[i]);
        assert nodes[..] == ns;
      }
      if v.groups.Some? {
        var gs := v.groups.value;
        groups := new GroupValue[|gs|](i requires 0 <= i < |gs| => gs[i]);
        assert groups[..] == gs;
      }
    }

    /** First pass: give every node its workspace id and record the worktrees it mentions. */
    method PlaceNodes(ctx: Ctx) returns (r: Result<Tables, Error>)
      requires nodes != null
      modifies nodes
      ensures r.Ok? <==> AllNamed(old(nodes[..]))
      ensures r.Ok? ==>
        && AllNamed(old(nodes[..]))
        && r.value == AfterNodes(ctx, old(nodes[..]), nodes.Length)
        && nodes[..] == PlacedNodes(ctx, old(nodes[..]))
    {
      ghost var ns := nodes[..];
      var tables := Tables(map[], map[]);
      var k := 0;
      while k < nodes.Length
        invariant 0 <= k <= nodes.Length
        invariant Placing(ctx, ns, nodes[..], tables, k)
      {
        assert nodes[..][k] == ns[k];
        if !Named(nodes[k]) {
          return Err(MissingField("id"));
        }
        PlacingStep(ctx, ns, nodes[..], tables, k);
        ghost var next := nodes[..][k := PlaceNode(ctx, ns[k])];
        tables := RecordNode(ctx, tables, nodes[k]);
        nodes[k] := PlaceNode(ctx, nodes[k]);
        assert nodes[..] == next;
        k := k + 1;
      }
      AllPlaced(ctx, ns, nodes[..], tables);
      r := Ok(tables);
    }

    /** The first node of a worktree describes it; every node records where it works. */
    static method RecordNode(ctx: Ctx, t: Tables, n: NodeValue) returns (t': Tables)
      requires Named(n)
      ensures t' == NodeStep(ctx, t, n)
    {
      var ids, descriptors := t.ids, t.descriptors;
      var id := InitialId(ctx, n);
      if InWorktree(n) && id !in descriptors {
        descriptors := descriptors[id := InitialDescriptor(ctx, n)];
      }
      ids := ids[n.id.value := id];
      t' := Tables(ids, descriptors);
    }

    /** Move every node on one chain to the given workspace, in the nodes and in the map of ids. */
    method RemapGroupChain(group: string, root: string, ws: string, ids: map<string, string>)
      returns (ids': map<string, string>)
      requires nodes != null
      modifies nodes
      ensures nodes[..] == RemapNodes(old(nodes[..]), group, root, ws)
      ensures ids' == RemapIds(old(nodes[..]), group, root, ws, ids, nodes.Length)
    {
      ghost var ns := nodes[..];
      ids' := ids;
      var k := 0;
      while k < nodes.Length
        invariant 0 <= k <= nodes.Length
        invariant ids' == RemapIds(ns, group, root, ws, ids, k)
        invariant forall i :: 0 <= i < k ==> nodes[i] == RemapNode(ns[i], group, root, ws)
        invariant forall i :: k <= i < nodes.Length ==> nodes[i] == ns[i]
      {
        if InChain(nodes[k], group, root) {
          ids' := ids'[nodes[k].id.value := ws];
          nodes[k] := nodes[k].(place := nodes[k].place.(workspaceId := Some(ws)));
        }
        k := k + 1;
      }
    }

    /** One group of the second pass: link its roots, isolating those that shared the main checkout. */
    method ProcessGroup(ctx: Ctx, g: GroupValue, t: Tables) returns (t': Tables)
      requires nodes != null && GroupError(g).None?
      modifies nodes
      ensures Work(nodes[..], t') == GroupStep(ctx, Work(old(nodes[..]), t), g)
    {
      ghost var w := Work(nodes[..], t);
      var group, roots := g.id.value, g.rootNodeIds.value;
      var target := Target(t.ids, g);
      var ids, descriptors := t.ids, t.descriptors;
      var m := 0;
      while m < |roots|
        invariant 0 <= m <= |roots|
        invariant Work(nodes[..], Tables(ids, descriptors)) == AfterRoots(ctx, w, group, target, roots, m)
      {
        var root := roots[m];
        if root in ids {
          var ws := ids[root];
          if ws == MAIN_WORKSPACE {
            var d := SyntheticDescriptor(ctx, group, root, target);
            descriptors := descriptors[d.id := d];
            ids := RemapGroupChain(group, root, d.id, ids);
          } else if ws in descriptors {
            descriptors := descriptors[ws := descriptors[ws].(parent := target, creator := group)];
          }
        }
        m := m + 1;
      }
      t' := Tables(ids, descriptors);
    }

    /** Second pass over all groups; stops at the first group it cannot read. */
    method ProcessGroups(ctx: Ctx, gs: seq<GroupValue>, t: Tables) returns (r: Result<Tables, Error>)
      requires nodes != null
      modifies nodes
      ensures r.Ok? <==> AllReadable(gs)
      ensures r.Ok? ==> Work(nodes[..], r.value) == AfterGroups(ctx, Work(old(nodes[..]), t), gs, |gs|)
    {
      ghost var w := Work(nodes[..], t);
      var tables := t;
      var j := 0;
      while j < |gs|
        invariant 0 <= j <= |gs| && AllReadable(gs[..j])
        invariant Work(nodes[..], tables) == AfterGroups(ctx, w, gs[..j], j)
      {
        var e := GroupError(gs[j]);
        if e.Some? {
          return Err(e.value);
        }
        assert gs[..j + 1] == gs[..j] + [gs[j]];
        AfterGroupsPrefix(ctx, w, gs[..j], gs[..j + 1], j);
        assert gs[..j + 1][j] == gs[j];
        tables := ProcessGroup(ctx, gs[j], tables);
        j := j + 1;
      }
      assert gs[..j] == gs;
      r := Ok(tables);
    }

    /** Third pass: write target and children into every group, or fail on a root that names no node. */
    method LinkGroups(ids: map<string, string>) returns (r: Result<(), Error>)
      requires groups != null
      modifies groups
      ensures r.Ok? <==> AllRootsKnown(ids, old(groups[..]))
      ensures r.Ok? ==> groups[..] == LinkedGroups(ids, old(groups[..]))
    {
      ghost var gs := groups[..];
      var j := 0;
      while j < groups.Length
        invariant 0 <= j <= groups.Length
        invariant forall i :: 0 <= i < j ==> RootsKnown(ids, gs[i]) && groups[i] == LinkedGroup(ids, gs[i])
        invariant forall i :: j <= i < groups.Length ==> groups[i] == gs[i]
      {
        var g := groups[j];
        if g.rootNodeIds.None? {
          assert !RootsKnown(ids, gs[j]);
          return Err(MissingField("rootNodeIds"));
        }
        var roots := g.rootNodeIds.value;
        var children: seq<string> := [];
        var m := 0;
        while m < |roots|
          invariant 0 <= m <= |roots| && |children| == m
          invariant forall i :: 0 <= i < m ==> roots[i] in ids && children[i] == ids[roots[i]]
        {
          if roots[m] !in ids {
            assert !RootsKnown(ids, gs[j]);
            return Err(MissingRootNode(roots[m]));
          }
          children := children + [ids[roots[m]]];
          m := m + 1;
        }
        assert children == Children(ids, roots);
        groups[j] := g.(targetWorkspaceId := Some(Target(ids, g)), childWorkspaceIds := Some(children));
        j := j + 1;
      }
      r := Ok(());
    }

    /** Graph v0.1 to v0.2. */
    method MigrateV01(env: Env) returns (r: Result<(), Error>)
      modifies this, nodes, groups
      ensures r.Ok? <==> Migratable(env, old(View()))
      ensures r.Ok? ==> View() == MigratedV01(env, old(View()))
      ensures nodes == old(nodes) && groups == old(groups)
    {
      ghost var v := View();
      if run.None? {
        return Err(MissingField("run"));
      }
      if !Present(run.value.id) || !Present(run.value.startedAt) || !Present(run.value.updatedAt) {
        return Err(MissingField("run"));
      }
      if groups == null {
        return Err(MissingField("groups"));
      }
      if nodes == null {
        return Err(MissingField("nodes"));
      }
      var ctx := Ctx(env, run.value.id.value);
      var gs := groups[..];
      var statuses := Statuses(gs);
      var placed := PlaceNodes(ctx);
      if placed.Err? {
        return Err(placed.error);
      }
      var processed := ProcessGroups(ctx, gs, placed.value);
      if processed.Err? {
        return Err(processed.error);
      }
      var catalog := BuildCatalog(ctx, processed.value.descriptors, statuses,
                                  run.value.startedAt.value, run.value.updatedAt.value);
      assert Readable(v) && Work(nodes[..], processed.value) == FinalWork(env, v);
      var linked := LinkGroups(processed.value.ids);
      if linked.Err? {
        return Err(linked.error);
      }
      version := Some(CATALOG);
      workspaces := Some(catalog);
      r := Ok(());
    }

    static method Statuses(gs: seq<GroupValue>) returns (statuses: map<string, string>)
      ensures statuses == GroupStatuses(gs, |gs|)
    {
      statuses := map[];
      for k := 0 to |gs|
        invariant statuses == GroupStatuses(gs, k)
      {
        if gs[k].id.Some? && gs[k].status.Some? {
          statuses := statuses[gs[k].id.value := gs[k].status.value];
        }
      }
    }

    /** The main workspace followed by the legacy workspaces in the order of their ids. */
    static method BuildCatalog(ctx: Ctx, descriptors: map<string, Descriptor>, statuses: map<string, string>,
                               createdAt: string, updatedAt: string) returns (catalog: seq<Workspace>)
      ensures catalog == Catalog(ctx, descriptors, statuses, createdAt, updatedAt)
    {
      catalog := [MainWorkspace(ctx, createdAt, updatedAt)];
      var keys := SortedKeys(descriptors.Keys);
      ghost var all := Catalog(ctx, descriptors, statuses, createdAt, updatedAt);
      for i := 0 to |keys|
        invariant catalog == all[..i + 1]
      {
        assert keys[i] in keys;
        var d := descriptors[keys[i]];
        CatalogEntry(ctx, descriptors, statuses, createdAt, updatedAt, i);
        TakeNext(all, i + 1);
        catalog := catalog + [LegacyWorkspace(ctx, d, createdAt, updatedAt, Closed(statuses, d.creator))];
      }
    }

    /** Graph v0.2 to v0.3. */
    method MigrateV02() returns (r: Result<(), Error>)
      modifies this, nodes
      ensures r.Ok? <==> MigratableV02(old(View()))
      ensures r.Ok? ==> View() == MigratedV02(old(View()))
      ensures nodes == old(nodes) && groups == old(groups)
    {
      if run.None? || !Present(run.value.updatedAt) {
        return Err(MissingField("run"));
      }
      if nodes == null {
        return Err(MissingField("nodes"));
      }
      ghost var v, ns := View(), nodes[..];
      var a := nodes;
      var info := RunInfo(run.value.status == Some("running"), run.value.updatedAt.value,
                          run.value.currentNodeIds.GetOr([]));
      var k := 0;
      while k < a.Length
        invariant 0 <= k <= a.Length
        invariant forall i :: 0 <= i < k ==> LeafReadable(ns[i]) && a[i] == LeafV02(info, ns[i])
        invariant forall i :: k <= i < a.Length ==> a[i] == ns[i]
        modifies a
      {
        if !LeafReadable(a[k]) {
          assert !LeafReadable(ns[k]);
          return Err(MissingField("status"));
        }
        a[k] := LeafV02(info, a[k]);
        k := k + 1;
      }
      version := Some(LEAF_EXECUTION);
      assert info == RunInfoOf(v);
      assert nodes[..] == MigratedV02(v).nodes.value;
      r := Ok(());
    }

    /** Graph v0.3 to v0.4. */
    method MigrateV03() returns (r: Result<(), Error>)
      modifies this, nodes
      ensures r.Ok? <==> old(View()).nodes.Some?
      ensures r.Ok? ==> View() == MigratedV03(old(View()))
      ensures nodes == old(nodes) && groups == old(groups)
    {
      if nodes == null {
        return Err(MissingField("nodes"));
      }
      ghost var v, ns := View(), nodes[..];
      var a := nodes;
      var k := 0;
      while k < a.Length
        invariant 0 <= k <= a.Length
        invariant forall i :: 0 <= i < k ==> a[i] == LeafV03(ns[i])
        invariant forall i :: k <= i < a.Length ==> a[i] == ns[i]
        modifies a
      {
        a[k] := LeafV03(a[k]);
        k := k + 1;
      }
      version := Some(CURRENT);
      assert nodes[..] == MigratedV03(v).nodes.value;
      r := Ok(());
    }
  }
}
