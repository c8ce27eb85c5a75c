/**
 Which graphs of each version load, as a condition on the stored value, and what they load to. The v0.1 graphs
 without a catalog are the subject of `LegacyLoading`.
 */
module VersionedLoading {
  import opened Wrappers
  import opened Text
  import opened LeafLifecycle
  import opened GraphModel
  import opened CatalogMigration
  import opened CatalogTheorems
  import opened LeafMigration
  import opened GraphLoading
  import opened LegacyLoading

  // ---- Conditions on the stored value ----

  /** Run, groups and workspaces decode and are valid: no migration of leaves touches them. */
  predicate FrameLoads(v: GraphValue) {
    && v.run.Some? && DecodableRun(v.run.value) && ValidRun(DecodeRun(v.run.value))
    && v.groups.Some? && (forall i :: 0 <= i < |v.groups.value| ==>
                            DecodableGroup(v.groups.value[i]) && ValidGroup(DecodeGroup(v.groups.value[i])))
    && v.workspaces.Some? && (forall i :: 0 <= i < |v.workspaces.value| ==> ValidWorkspace(v.workspaces.value[i]))
  }

  /** A node whose fields other than those of its execution decode and are valid. */
  predicate NodeFrameLoads(n: NodeValue) {
    && Present(n.id) && n.status.Some? && KnownStatus(n.status.value) && RestFit(n)
    && n.place.chainId.Some? && Present(n.place.workspaceId) && n.storageVersion.GetOr(0) <= 0xFFFF_FFFF
  }

  /** The execution fields of the current version decode to this leaf and satisfy the execution clauses. */
  predicate ExecLoads(n: NodeValue, leaf: LeafExec) {
    (n.exec.phase.Some? ==> ParsePhase(n.exec.phase.value).Some?) && leaf.revision <= U64_MAX && ExecClauses(leaf)
  }

  lemma {:induction false} NodeLoadsIff(n: NodeValue)
    ensures Decodable(n) && ValidNode(DecodeNode(n)) <==> NodeFrameLoads(n) && ExecLoads(n, DecodeExec(n.exec))
  {
  }

  // ---- The current version ----

  /** A current value loads as it is, without a migration, if and only if each part is valid and the topology is. */
  lemma {:induction false} DecodedValidIff(u: GraphValue)
    ensures (DecodableGraph(u) && ValidGraph(DecodeGraph(u))) <==>
      && u.version == Some("0.4") && FrameLoads(u)
      && u.nodes.Some? && (forall i :: 0 <= i < |u.nodes.value| ==>
           NodeFrameLoads(u.nodes.value[i]) && ExecLoads(u.nodes.value[i], DecodeExec(u.nodes.value[i].exec)))
      && PassesTopology(u)
  {
    if u.nodes.Some? {
      forall i | 0 <= i < |u.nodes.value|
        ensures Decodable(u.nodes.value[i]) && ValidNode(DecodeNode(u.nodes.value[i])) <==>
                NodeFrameLoads(u.nodes.value[i]) && ExecLoads(u.nodes.value[i], DecodeExec(u.nodes.value[i].exec))
      {
        NodeLoadsIff(u.nodes.value[i]);
      }
    }
    if DecodableGraph(u) {
      DecodedTopology(u);
      DecodedParts(u);
    }
  }

  lemma {:induction false} DecodedTopology(u: GraphValue)
    requires DecodableGraph(u)
    ensures var g := DecodeGraph(u);
      PassesTopology(u) <==> ValidTopology(g.workspaces,
        seq(|g.nodes|, i requires 0 <= i < |g.nodes| => g.nodes[i].workspaceId),
        seq(|g.groups|, i requires 0 <= i < |g.groups| => Links(g.groups[i])))
  {
    var g := DecodeGraph(u);
    assert seq(|g.nodes|, i requires 0 <= i < |g.nodes| => g.nodes[i].workspaceId) == NodeWorkspaces(u);
    assert seq(|g.groups|, i requires 0 <= i < |g.groups| => Links(g.groups[i])) == AllLinks(u);
  }

  lemma {:induction false} DecodedParts(u: GraphValue)
    requires DecodableGraph(u)
    ensures var g := DecodeGraph(u);
      && (forall i :: 0 <= i < |g.nodes| ==> g.nodes[i] == DecodeNode(u.nodes.value[i]))
      && (forall i :: 0 <= i < |g.groups| ==> g.groups[i] == DecodeGroup(u.groups.value[i]))
  {
  }

  lemma {:induction false} CurrentLoadsIff(env: Env, v: GraphValue)
    requires v.version == Some("0.4")
    ensures FromValue(env, v).Some? <==>
      && FrameLoads(v)
      && v.nodes.Some? && (forall i :: 0 <= i < |v.nodes.value| ==>
           NodeFrameLoads(v.nodes.value[i]) && ExecLoads(v.nodes.value[i], DecodeExec(v.nodes.value[i].exec)))
      && PassesTopology(v)
    ensures FromValue(env, v).Some? ==> FromValue(env, v).value == (DecodeGraph(v), false)
  {
    DecodedValidIff(v);
  }

  /** Only four versions load, and exactly the current one without a migration. */
  lemma {:induction false} VersionDecides(env: Env, v: GraphValue)
    requires FromValue(env, v).Some?
    ensures v.version in {Some("0.1"), Some("0.2"), Some("0.3"), Some("0.4")}
    ensures FromValue(env, v).value.1 <==> v.version != Some("0.4")
  {
  }

  // ---- Version 0.3 ----

  /** The leaf that a v0.3 node becomes. */
  function LeafOfV03(n: NodeValue): LeafExec {
    LeafExec(n.exec.executionId, if n.exec.phase.Some? then ParsePhase(n.exec.phase.value) else None,
             n.exec.executionRevision.GetOr(0),
             if n.exec.executionUpdatedAt.Some? then n.exec.executionUpdatedAt else n.exec.lifecycleUpdatedAt)
  }

  /** The loaded graph is the stored one, leaf for leaf with these executions. */
  ghost predicate LoadsTo(v: GraphValue, g: Graph, leaf: NodeValue -> LeafExec)
    requires FrameLoads(v) && v.nodes.Some? && forall i :: 0 <= i < |v.nodes.value| ==> NodeFrameLoads(v.nodes.value[i])
  {
    && g.version == "0.4" && g.run == DecodeRun(v.run.value) && g.workspaces == v.workspaces.value && g.proposals == v.proposals
    && |g.groups| == |v.groups.value|
    && (forall i :: 0 <= i < |g.groups| ==> g.groups[i] == DecodeGroup(v.groups.value[i]))
    && |g.nodes| == |v.nodes.value|
    && (forall i :: 0 <= i < |g.nodes| ==> NodeLoadsTo(v.nodes.value[i], g.nodes[i], leaf))
  }

  predicate NodeLoadsTo(n: NodeValue, loaded: NodeState, leaf: NodeValue -> LeafExec)
    requires NodeFrameLoads(n)
  {
    loaded == NodeState(n.id.value, n.status.value, leaf(n), n.place.groupId, n.place.chainId.value,
                        n.place.workspaceId.value, n.startedAt, n.finishedAt, n.storageVersion.GetOr(0), n.rest)
  }

  lemma {:induction false} MigratedNodeV03(n: NodeValue)
    ensures NodeFrameLoads(LeafV03(n)) <==> NodeFrameLoads(n)
    ensures DecodeExec(LeafV03(n).exec) == LeafOfV03(n) && LeafV03(n).exec.phase == n.exec.phase
    ensures NodeFrameLoads(n) && Decodable(LeafV03(n)) ==> NodeLoadsTo(n, DecodeNode(LeafV03(n)), LeafOfV03)
  {
  }

  /** A v0.3 value loads if and only if its parts are valid with the revision and time moved over. */
  lemma {:induction false} V03LoadsIff(env: Env, v: GraphValue)
    requires v.version == Some("0.3")
    ensures FromValue(env, v).Some? <==>
      && FrameLoads(v)
      && v.nodes.Some? && (forall i :: 0 <= i < |v.nodes.value| ==>
           NodeFrameLoads(v.nodes.value[i]) && ExecLoads(v.nodes.value[i], LeafOfV03(v.nodes.value[i])))
      && PassesTopology(v)
    ensures FromValue(env, v).Some? ==> FromValue(env, v).value.1 && LoadsTo(v, FromValue(env, v).value.0, LeafOfV03)
  {
    if v.nodes.Some? {
      var u := MigratedV03(v);
      NodesV03(v, u);
      SameTopology(v, u);
      DecodedValidIff(u);
      if FromValue(env, v).Some? {
        V03LoadsTo(v, u);
      }
    }
  }

  lemma {:induction false} NodesV03(v: GraphValue, u: GraphValue)
    requires v.nodes.Some? && u == MigratedV03(v)
    ensures u.nodes.Some? && |u.nodes.value| == |v.nodes.value|
    ensures forall i :: 0 <= i < |v.nodes.value| ==>
      var n, m := v.nodes.value[i], u.nodes.value[i];
      && m == LeafV03(n) && m.place == n.place && (NodeFrameLoads(m) <==> NodeFrameLoads(n))
      && (ExecLoads(m, DecodeExec(m.exec)) <==> ExecLoads(n, LeafOfV03(n)))
  {
    forall i | 0 <= i < |v.nodes.value|
      ensures var n, m := v.nodes.value[i], u.nodes.value[i];
        && m == LeafV03(n) && m.place == n.place && (NodeFrameLoads(m) <==> NodeFrameLoads(n))
        && (ExecLoads(m, DecodeExec(m.exec)) <==> ExecLoads(n, LeafOfV03(n)))
    {
      MigratedNodeV03(v.nodes.value[i]);
    }
  }

  lemma {:induction false} SameTopology(v: GraphValue, u: GraphValue)
    requires v.nodes.Some? && u.nodes.Some? && |u.nodes.value| == |v.nodes.value|
    requires u.groups == v.groups && u.workspaces == v.workspaces
    requires forall i :: 0 <= i < |u.nodes.value| ==> u.nodes.value[i].place == v.nodes.value[i].place
    ensures PassesTopology(u) <==> PassesTopology(v)
  {
    assert NodeWorkspaces(u) == NodeWorkspaces(v);
    if v.groups.Some? {
      assert AllLinks(u) == AllLinks(v);
    }
  }

  lemma {:induction false} V03LoadsTo(v: GraphValue, u: GraphValue)
    requires FrameLoads(v) && v.nodes.Some? && forall i :: 0 <= i < |v.nodes.value| ==> NodeFrameLoads(v.nodes.value[i])
    requires u == MigratedV03(v) && DecodableGraph(u)
    ensures LoadsTo(v, DecodeGraph(u), LeafOfV03)
  {
    var g := DecodeGraph(u);
    forall i | 0 <= i < |g.nodes| ensures NodeLoadsTo(v.nodes.value[i], g.nodes[i], LeafOfV03) {
      MigratedNodeV03(v.nodes.value[i]);
    }
  }

  // ---- Version 0.2, and version 0.1 with a catalog ----

  /** The leaf that a v0.2 node becomes; `LeafMigration` says which phase and watermark that is. */
  function LeafOfV02(info: RunInfo, n: NodeValue): LeafExec {
    if LeafReadable(n) then MigratedLeaf(info, n) else LeafExec(None, None, 0, None)
  }

  lemma {:induction false} MigratedNodeV02(info: RunInfo, n: NodeValue)
    requires IsV02Leaf(n)
    ensures var m := LeafV03(LeafV02(info, n));
      && (NodeFrameLoads(m) <==> NodeFrameLoads(n))
      && (ExecLoads(m, DecodeExec(m.exec)) <==> WellDated(info, n))
      && (NodeFrameLoads(n) && Decodable(m) ==> NodeLoadsTo(n, DecodeNode(m), k => LeafOfV02(info, k)))
  {
    var e := LeafV02(info, n).exec;
    assert e.phase.Some? ==> ParsePhase(e.phase.value).Some?;
    LeafValidIff(info, n);
  }

  predicate CataloguedBefore(v: GraphValue) {
    && (v.version == Some("0.2") || (v.version == Some("0.1") && HasCatalog(v)))
    && v.nodes.Some? && forall i :: 0 <= i < |v.nodes.value| ==> IsV02Leaf(v.nodes.value[i])
  }

  /**
   A v0.2 value, or a v0.1 value that has a catalog already, whose leaves are as v0.2 wrote them, loads if and
   only if its parts are valid and every leaf is well dated.
   */
  lemma {:induction false} V02LoadsIff(env: Env, v: GraphValue)
    requires CataloguedBefore(v)
    ensures FromValue(env, v).Some? <==>
      && FrameLoads(v) && RunInfoReadable(v)
      && (forall i :: 0 <= i < |v.nodes.value| ==>
            NodeFrameLoads(v.nodes.value[i]) && WellDated(RunInfoOf(v), v.nodes.value[i]))
      && PassesTopology(v)
  {
    if RunInfoReadable(v) {
      var u := MigratedV03(MigratedV02(v.(version := Some(CATALOG))));
      NodesV02(v, u);
      UpgradedV02(env, v, u);
      SameTopology(v, u);
      DecodedValidIff(u);
    }
  }

  /** What it loads to. */
  lemma {:induction false} V02Loaded(env: Env, v: GraphValue)
    requires CataloguedBefore(v) && FromValue(env, v).Some?
    ensures FrameLoads(v) && RunInfoReadable(v) && forall i :: 0 <= i < |v.nodes.value| ==> NodeFrameLoads(v.nodes.value[i])
    ensures FromValue(env, v).value.1 && LoadsTo(v, FromValue(env, v).value.0, n => LeafOfV02(RunInfoOf(v), n))
  {
    var u := MigratedV03(MigratedV02(v.(version := Some(CATALOG))));
    V02LoadsIff(env, v);
    NodesV02(v, u);
    UpgradedV02(env, v, u);
    V02LoadsTo(v, u, RunInfoOf(v));
  }

  lemma {:induction false} NodesV02(v: GraphValue, u: GraphValue)
    requires RunInfoReadable(v) && v.nodes.Some? && forall i :: 0 <= i < |v.nodes.value| ==> IsV02Leaf(v.nodes.value[i])
    requires MigratableV02(v.(version := Some(CATALOG))) && u == MigratedV03(MigratedV02(v.(version := Some(CATALOG))))
    ensures u.nodes.Some? && |u.nodes.value| == |v.nodes.value|
    ensures forall i :: 0 <= i < |v.nodes.value| ==>
      var n, m := v.nodes.value[i], u.nodes.value[i];
      && m == LeafV03(LeafV02(RunInfoOf(v), n)) && m.place == n.place
      && (NodeFrameLoads(m) <==> NodeFrameLoads(n))
      && (ExecLoads(m, DecodeExec(m.exec)) <==> WellDated(RunInfoOf(v), n))
  {
    assert RunInfoOf(v.(version := Some(CATALOG))) == RunInfoOf(v);
    forall i | 0 <= i < |v.nodes.value|
      ensures var n, m := v.nodes.value[i], u.nodes.value[i];
        && m == LeafV03(LeafV02(RunInfoOf(v), n)) && m.place == n.place
        && (NodeFrameLoads(m) <==> NodeFrameLoads(n))
        && (ExecLoads(m, DecodeExec(m.exec)) <==> WellDated(RunInfoOf(v), n))
    {
      MigratedNodeV02(RunInfoOf(v), v.nodes.value[i]);
    }
  }

  lemma {:induction false} UpgradedV02(env: Env, v: GraphValue, u: GraphValue)
    requires v.version == Some("0.2") || (v.version == Some("0.1") && HasCatalog(v))
    requires MigratableV02(v.(version := Some(CATALOG))) && u == MigratedV03(MigratedV02(v.(version := Some(CATALOG))))
    ensures Upgrade(env, v) == Some((u, true))
  {
    if v.version == Some("0.2") {
      assert v.(version := Some(CATALOG)) == v;
    }
  }

  lemma {:induction false} V02LoadsTo(v: GraphValue, u: GraphValue, info: RunInfo)
    requires FrameLoads(v) && v.nodes.Some? && forall i :: 0 <= i < |v.nodes.value| ==>
      IsV02Leaf(v.nodes.value[i]) && NodeFrameLoads(v.nodes.value[i])
    requires DecodableGraph(u) && u.version == Some("0.4") && u.run == v.run && u.groups == v.groups
    requires u.workspaces == v.workspaces && u.proposals == v.proposals && |u.nodes.value| == |v.nodes.value|
    requires forall i :: 0 <= i < |u.nodes.value| ==>
      LeafReadable(v.nodes.value[i]) && u.nodes.value[i] == LeafV03(LeafV02(info, v.nodes.value[i]))
    ensures LoadsTo(v, DecodeGraph(u), n => LeafOfV02(info, n))
  {
    var g := DecodeGraph(u);
    forall i | 0 <= i < |g.nodes| ensures NodeLoadsTo(v.nodes.value[i], g.nodes[i], n => LeafOfV02(info, n)) {
      MigratedNodeV02(info, v.nodes.value[i]);
    }
  }

  // ---- Every loaded graph ----

  /** A workspace of the graph has this id, and only one. */
  ghost predicate NamesOne(ws: seq<Workspace>, id: string) {
    exists k :: 0 <= k < |ws| && ws[k].id == id && forall j :: 0 <= j < |ws| && j != k ==> ws[j].id != id
  }

  /** The child workspace that a group records for a root: forked from the group's target, by the group. */
  ghost predicate ChildOf(ws: seq<Workspace>, g: GroupState, child: string) {
    exists k :: 0 <= k < |ws| && ws[k].id == child && ws[k].parentWorkspaceId == Some(g.targetWorkspaceId) &&
      ws[k].createdByGroupId == Some(g.id)
  }

  lemma {:induction false} FoundIsThere(ws: seq<Workspace>, id: string)
    requires FindWorkspace(ws, id).Some?
    ensures exists k :: 0 <= k < |ws| && ws[k].id == id && FindWorkspace(ws, id) == Some(ws[k])
  {
    if ws[0].id != id {
      FoundIsThere(ws[1..], id);
      var k :| 0 <= k < |ws[1..]| && ws[1..][k].id == id && FindWorkspace(ws, id) == Some(ws[1..][k]);
      assert ws[k + 1] == ws[1..][k];
    }
  }

  /** In a graph that loads every node and group works in a catalogued workspace, and links are closed. */
  lemma {:induction false} LoadedNodeConsistent(env: Env, v: GraphValue, i: nat)
    requires FromValue(env, v).Some? && i < |FromValue(env, v).value.0.nodes|
    ensures var g := FromValue(env, v).value.0; var n := g.nodes[i];
      && NamesOne(g.workspaces, n.workspaceId)
      && !Blank(n.id) && !Blank(n.workspaceId) && !Blank(n.rest.title) && !Blank(n.rest.task)
      && (n.exec.executionId.Some? ==>
            n.exec.phase in {Some(StartingNode), Some(RunningNode), Some(FinalizingArtifact), Some(RepairingArtifact)})
      && (n.exec.revision == 0 <==> n.exec.updatedAt.None?) && (n.exec.updatedAt.Some? ==> !Blank(n.exec.updatedAt.value))
      && (n.status == "completed" <==> n.rest.hasOutcome)
      && (n.rest.hasPauseReason ==> n.status == "paused") && (n.rest.hasRuntimeError ==> n.rest.hasPauseReason)
      && n.rest.version == "0.1" && !Blank(n.rest.dynamicRunId)
  {
    var g := FromValue(env, v).value.0;
    var nodes := seq(|g.nodes|, i requires 0 <= i < |g.nodes| => g.nodes[i].workspaceId);
    assert ValidNode(g.nodes[i]);
    assert Known(g.workspaces, nodes[i]);
    var k :| 0 <= k < |g.workspaces| && g.workspaces[k].id == g.nodes[i].workspaceId;
    assert forall j :: 0 <= j < |g.workspaces| && j != k ==> g.workspaces[j].id != g.workspaces[k].id;
  }

  lemma {:induction false} LoadedGroupConsistent(env: Env, v: GraphValue, a: nat)
    requires FromValue(env, v).Some? && a < |FromValue(env, v).value.0.groups|
    ensures var g := FromValue(env, v).value.0; var group := g.groups[a];
      && NamesOne(g.workspaces, group.targetWorkspaceId)
      && group.rootNodeIds != [] && |group.childWorkspaceIds| == |group.rootNodeIds|
      && group.rest.parentGroupId != Some(group.id) && group.rest.version == "0.1" && !Blank(group.id)
      && (forall b :: 0 <= b < |group.childWorkspaceIds| ==> ChildOf(g.workspaces, group, group.childWorkspaceIds[b]))
  {
    var g := FromValue(env, v).value.0;
    var group, links := g.groups[a], seq(|g.groups|, i requires 0 <= i < |g.groups| => Links(g.groups[i]));
    assert ValidGroup(group) && links[a] == Links(group);
    assert Known(g.workspaces, links[a].target);
    var k :| 0 <= k < |g.workspaces| && g.workspaces[k].id == group.targetWorkspaceId;
    assert forall j :: 0 <= j < |g.workspaces| && j != k ==> g.workspaces[j].id != g.workspaces[k].id;
    forall b | 0 <= b < |group.childWorkspaceIds| ensures ChildOf(g.workspaces, group, group.childWorkspaceIds[b]) {
      assert ChildLinked(g.workspaces, links[a], links[a].children[b]);
      FoundIsThere(g.workspaces, group.childWorkspaceIds[b]);
    }
  }

  /** Its run is in a state that its outcome and pause reason agree with, and its workspaces are complete. */
  lemma {:induction false} LoadedFrameConsistent(env: Env, v: GraphValue, w: Workspace)
    requires FromValue(env, v).Some? && w in FromValue(env, v).value.0.workspaces
    ensures var run := FromValue(env, v).value.0.run;
      && run.status in {"running", "paused", "completed"} && !Blank(run.id) && !Blank(run.rest.parentRunId)
      && (run.status == "completed" <==> run.rest.hasOutcome) && (run.rest.hasPauseReason ==> run.status == "paused")
      && (run.rest.preparing ==> run.status == "running") && run.rest.version == "0.1"
    ensures w.version == "0.1" && !Blank(w.id) && !Blank(w.dynamicRunId) && w.path != "" && !Blank(w.forkCommit)
    ensures w.kind == Main ==> w.ownership == User && w.branch == None && w.parentWorkspaceId == None
    ensures w.kind == Worktree ==>
      && w.ownership == Runtime && w.branch.Some? && !Blank(w.branch.value)
      && w.parentWorkspaceId.Some? && !Blank(w.parentWorkspaceId.value)
  {
    var g := FromValue(env, v).value.0;
    var k :| 0 <= k < |g.workspaces| && g.workspaces[k] == w;
    assert ValidWorkspace(g.workspaces[k]);
  }
}
