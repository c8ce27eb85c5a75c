/**
 The dynamic graph in its two shapes: the JSON value that storage migrates in place, and the
 decoded state that the validators check (src/dynamic.rs).
 */
module GraphModel {
  import opened Wrappers
  import opened Text
  import opened LeafLifecycle

  const VERSION := "0.1"
  const CURRENT := "0.4"
  const LEAF_EXECUTION := "0.3"
  const CATALOG := "0.2"
  const LEGACY := "0.1"
  const MAIN_WORKSPACE := "workspace-main"
  const U32_MAX: nat := 0xFFFF_FFFF

  datatype Error =
    | MissingField(field: string)
    | MissingRootNode(id: string)
    | UnsupportedVersion(version: string)
    | DecodeFailed
    | Invalid

  // ---- JSON shape: every field a migration reads or writes may be absent ----

  datatype Placement = Placement(
    groupId: Option<string>,
    chainId: Option<string>,
    mode: Option<string>,
    workspacePath: Option<string>,
    workspaceId: Option<string>)

  datatype ExecFields = ExecFields(
    executionId: Option<string>,
    phase: Option<string>,
    executionRevision: Option<nat>,
    executionUpdatedAt: Option<string>,
    lifecycleRevision: Option<nat>,
    lifecycleUpdatedAt: Option<string>)

  /** The node fields that only the validator looks at; `payload` is everything else. */
  datatype NodeRest = NodeRest(
    version: string, dynamicRunId: string, title: string, task: string,
    hasOutcome: bool, hasPauseReason: bool, hasRuntimeError: bool, payload: string)

  datatype NodeValue = NodeValue(
    id: Option<string>,
    status: Option<string>,
    place: Placement,
    exec: ExecFields,
    startedAt: Option<string>,
    finishedAt: Option<string>,
    storageVersion: Option<nat>,
    rest: NodeRest)

  datatype GroupRest = GroupRest(version: string, parentGroupId: Option<string>, payload: string)

  datatype GroupValue = GroupValue(
    id: Option<string>,
    status: Option<string>,
    createdByNodeId: Option<string>,
    rootNodeIds: Option<seq<string>>,
    targetWorkspaceId: Option<string>,
    childWorkspaceIds: Option<seq<string>>,
    rest: GroupRest)

  datatype RunRest = RunRest(
    version: string, parentRunId: string, hasOutcome: bool, hasPauseReason: bool,
    preparing: bool, payload: string)

  datatype RunValue = RunValue(
    id: Option<string>,
    status: Option<string>,
    startedAt: Option<string>,
    updatedAt: Option<string>,
    currentNodeIds: Option<seq<string>>,
    rest: RunRest)

  datatype WorkspaceKind = Main | Worktree
  datatype WorkspaceOwnership = User | Runtime
  datatype WorkspaceStatus = WsActive | WsFrozen | WsMerging | WsMerged | WsReleased

  datatype Workspace = Workspace(
    version: string, id: string, dynamicRunId: string,
    kind: WorkspaceKind, ownership: WorkspaceOwnership,
    repoRoot: string, path: string, branch: Option<string>,
    parentWorkspaceId: Option<string>, createdByGroupId: Option<string>,
    forkCommit: string, checkpointCommit: Option<string>, status: WorkspaceStatus,
    createdAt: string, updatedAt: string)

  datatype GraphValue = GraphValue(
    version: Option<string>,
    run: Option<RunValue>,
    nodes: Option<seq<NodeValue>>,
    groups: Option<seq<GroupValue>>,
    workspaces: Option<seq<Workspace>>,
    proposals: string)

  /** `required_string`: present and not blank. */
  predicate Present(s: Option<string>) {
    s.Some? && !Blank(s.value)
  }

  // ---- Decoded shape ----

  datatype NodeState = NodeState(
    id: string, status: string, exec: LeafExec,
    groupId: Option<string>, chainId: string, workspaceId: string,
    startedAt: Option<string>, finishedAt: Option<string>,
    storageVersion: nat, rest: NodeRest)

  datatype GroupState = GroupState(
    id: string, status: string, createdByNodeId: string, rootNodeIds: seq<string>,
    targetWorkspaceId: string, childWorkspaceIds: seq<string>, rest: GroupRest)

  datatype RunState = RunState(
    id: string, status: string, startedAt: string, updatedAt: string,
    currentNodeIds: seq<string>, rest: RunRest)

  datatype Graph = Graph(
    version: string, run: RunState, nodes: seq<NodeState>, groups: seq<GroupState>,
    workspaces: seq<Workspace>, proposals: string)

  // ---- Validators ----

  predicate ValidRun(r: RunState) {
    && r.rest.version == VERSION
    && !Blank(r.id)
    && !Blank(r.rest.parentRunId)
    && (r.status == "completed" <==> r.rest.hasOutcome)
    && (r.rest.hasPauseReason ==> r.status == "paused")
    && (r.rest.preparing ==> r.status == "running")
  }

  predicate ValidNode(n: NodeState) {
    && n.rest.version == VERSION
    && !Blank(n.id) && !Blank(n.rest.dynamicRunId) && !Blank(n.workspaceId)
    && !Blank(n.rest.title) && !Blank(n.rest.task)
    && (n.status == "completed" <==> n.rest.hasOutcome)
    && (n.status == "paused" || (!n.rest.hasPauseReason && !n.rest.hasRuntimeError))
    && (n.rest.hasRuntimeError ==> n.rest.hasPauseReason)
    && ExecClauses(n.exec)
  }

  predicate ValidGroup(g: GroupState) {
    && g.rest.version == VERSION
    && !Blank(g.id)
    && (g.rest.parentGroupId.Some? ==>
          !Blank(g.rest.parentGroupId.value) && g.rest.parentGroupId.value != g.id)
    && g.rootNodeIds != []
    && !Blank(g.targetWorkspaceId)
    && |g.childWorkspaceIds| == |g.rootNodeIds|
  }

  predicate ValidWorkspace(w: Workspace) {
    && w.version == VERSION
    && !Blank(w.id) && !Blank(w.dynamicRunId) && w.path != "" && !Blank(w.forkCommit)
    && match w.kind
       case Main => w.ownership == User && w.branch.None? && w.parentWorkspaceId.None?
       case Worktree => w.ownership == Runtime && Present(w.branch) && Present(w.parentWorkspaceId)
  }

  /** What `validate_workspace_topology` reads of a group. */
  datatype GroupLinks = GroupLinks(id: string, target: string, children: seq<string>)

  /** The first workspace with this id (`iter().find`). */
  function FindWorkspace(ws: seq<Workspace>, id: string): Option<Workspace> {
    if ws == [] then None
    else if ws[0].id == id then Some(ws[0])
    else FindWorkspace(ws[1..], id)
  }

  predicate Known(ws: seq<Workspace>, id: string) {
    exists i :: 0 <= i < |ws| && ws[i].id == id
  }

  predicate ChildLinked(ws: seq<Workspace>, g: GroupLinks, child: string) {
    var found := FindWorkspace(ws, child);
    && found.Some?
    && found.value.parentWorkspaceId == Some(g.target)
    && found.value.createdByGroupId == Some(g.id)
  }

  /** `validate_workspace_topology`. */
  predicate ValidTopology(ws: seq<Workspace>, nodeWorkspaces: seq<string>, groups: seq<GroupLinks>) {
    && (forall i, j :: 0 <= i < j < |ws| ==> ws[i].id != ws[j].id)
    && (forall i :: 0 <= i < |nodeWorkspaces| ==> Known(ws, nodeWorkspaces[i]))
    && (forall g :: 0 <= g < |groups| ==>
          && Known(ws, groups[g].target)
          && (forall c :: 0 <= c < |groups[g].children| ==> ChildLinked(ws, groups[g], groups[g].children[c])))
  }

  function Links(g: GroupState): GroupLinks {
    GroupLinks(g.id, g.targetWorkspaceId, g.childWorkspaceIds)
  }

  /** `validate_dynamic_graph`. */
  predicate ValidGraph(g: Graph) {
    && g.version == CURRENT
    && ValidRun(g.run)
    && (forall i :: 0 <= i < |g.nodes| ==> ValidNode(g.nodes[i]))
    && (forall i :: 0 <= i < |g.groups| ==> ValidGroup(g.groups[i]))
    && (forall i :: 0 <= i < |g.workspaces| ==> ValidWorkspace(g.workspaces[i]))
    && ValidTopology(
         g.workspaces,
         seq(|g.nodes|, i requires 0 <= i < |g.nodes| => g.nodes[i].workspaceId),
         seq(|g.groups|, i requires 0 <= i < |g.groups| => Links(g.groups[i])))
  }

  // ---- Decoding and encoding ----

  function PhaseName(p: Phase): string {
    match p
    case StartingNode => "starting-node"
    case RunningNode => "running-node"
    case FinalizingArtifact => "finalizing-artifact"
    case RepairingArtifact => "repairing-artifact"
    case AwaitingManualCheck => "awaiting-manual-check"
    case Transitioning => "transitioning"
    case LaunchingNextNode => "launching-next-node"
    case PreparingWorkspace => "preparing-workspace"
    case Paused => "paused"
    case Terminal => "terminal"
  }

  function ParsePhase(s: string): Option<Phase> {
    match s
    case "starting-node" => Some(StartingNode)
    case "running-node" => Some(RunningNode)
    case "finalizing-artifact" => Some(FinalizingArtifact)
    case "repairing-artifact" => Some(RepairingArtifact)
    case "awaiting-manual-check" => Some(AwaitingManualCheck)
    case "transitioning" => Some(Transitioning)
    case "launching-next-node" => Some(LaunchingNextNode)
    case "preparing-workspace" => Some(PreparingWorkspace)
    case "paused" => Some(Paused)
    case "terminal" => Some(Terminal)
    case _ => None
  }

  predicate KnownStatus(s: string) {
    s in {"pending", "ready", "running", "paused", "completed"}
  }

  predicate KnownRunStatus(s: string) {
    s in {"running", "paused", "completed"}
  }

  predicate KnownGroupStatus(s: string) {
    s in {"open", "merge-ready", "merging", "merged", "accepting", "accepted", "closed", "failed"}
  }

  predicate Decodable(n: NodeValue) {
    && n.id.Some?
    && n.status.Some? && KnownStatus(n.status.value)
    && n.place.chainId.Some? && n.place.workspaceId.Some?
    && (n.exec.phase.Some? ==> ParsePhase(n.exec.phase.value).Some?)
    && n.exec.lifecycleRevision.GetOr(0) <= U64_MAX
    && n.storageVersion.GetOr(0) <= U32_MAX
  }

  function DecodeExec(e: ExecFields): LeafExec {
    LeafExec(e.executionId,
             if e.phase.Some? then ParsePhase(e.phase.value) else None,
             e.lifecycleRevision.GetOr(0), e.lifecycleUpdatedAt)
  }

  function DecodeNode(n: NodeValue): NodeState
    requires Decodable(n)
  {
    NodeState(n.id.value, n.status.value, DecodeExec(n.exec), n.place.groupId, n.place.chainId.value,
              n.place.workspaceId.value, n.startedAt, n.finishedAt, n.storageVersion.GetOr(0), n.rest)
  }

  /** Serialising skips the storage version and absent execution fields. */
  function EncodeNode(n: NodeState): NodeValue {
    NodeValue(
      Some(n.id), Some(n.status),
      Placement(n.groupId, Some(n.chainId), None, None, Some(n.workspaceId)),
      ExecFields(n.exec.executionId,
                 if n.exec.phase.Some? then Some(PhaseName(n.exec.phase.value)) else None,
                 None, None, Some(n.exec.revision), n.exec.updatedAt),
      n.startedAt, n.finishedAt, None, n.rest)
  }

  predicate DecodableGroup(g: GroupValue) {
    && g.id.Some? && g.status.Some? && KnownGroupStatus(g.status.value)
    && g.createdByNodeId.Some? && g.rootNodeIds.Some?
    && g.targetWorkspaceId.Some? && g.childWorkspaceIds.Some?
  }

  function DecodeGroup(g: GroupValue): GroupState
    requires DecodableGroup(g)
  {
    GroupState(g.id.value, g.status.value, g.createdByNodeId.value, g.rootNodeIds.value,
               g.targetWorkspaceId.value, g.childWorkspaceIds.value, g.rest)
  }

  function EncodeGroup(g: GroupState): GroupValue {
    GroupValue(Some(g.id), Some(g.status), Some(g.createdByNodeId), Some(g.rootNodeIds),
               Some(g.targetWorkspaceId), Some(g.childWorkspaceIds), g.rest)
  }

  predicate DecodableRun(r: RunValue) {
    && r.id.Some? && r.status.Some? && KnownRunStatus(r.status.value)
    && r.startedAt.Some? && r.updatedAt.Some? && r.currentNodeIds.Some?
  }

  function DecodeRun(r: RunValue): RunState
    requires DecodableRun(r)
  {
    RunState(r.id.value, r.status.value, r.startedAt.value, r.updatedAt.value, r.currentNodeIds.value, r.rest)
  }

  function EncodeRun(r: RunState): RunValue {
    RunValue(Some(r.id), Some(r.status), Some(r.startedAt), Some(r.updatedAt), Some(r.currentNodeIds), r.rest)
  }

  predicate DecodableGraph(v: GraphValue) {
    && v.version.Some?
    && v.run.Some? && DecodableRun(v.run.value)
    && v.nodes.Some? && (forall i :: 0 <= i < |v.nodes.value| ==> Decodable(v.nodes.value[i]))
    && v.groups.Some? && (forall i :: 0 <= i < |v.groups.value| ==> DecodableGroup(v.groups.value[i]))
    && v.workspaces.Some?
  }

  /** `serde_json::from_value`. */
  function DecodeGraph(v: GraphValue): Graph
    requires DecodableGraph(v)
  {
    var nodes := v.nodes.value;
    var groups := v.groups.value;
    Graph(v.version.value, DecodeRun(v.run.value),
          seq(|nodes|, i requires 0 <= i < |nodes| => DecodeNode(nodes[i])),
          seq(|groups|, i requires 0 <= i < |groups| => DecodeGroup(groups[i])),
          v.workspaces.value, v.proposals)
  }

  /** `serde_json::to_value`. */
  function EncodeGraph(g: Graph): GraphValue {
    GraphValue(Some(g.version), Some(EncodeRun(g.run)),
               Some(seq(|g.nodes|, i requires 0 <= i < |g.nodes| => EncodeNode(g.nodes[i]))),
               Some(seq(|g.groups|, i requires 0 <= i < |g.groups| => EncodeGroup(g.groups[i]))),
               Some(g.workspaces), g.proposals)
  }

  // ---- Facts about lookup ----

  lemma {:induction false} FindAt(ws: seq<Workspace>, i: nat)
    requires i < |ws| && forall a, b :: 0 <= a < b < |ws| ==> ws[a].id != ws[b].id
    ensures FindWorkspace(ws, ws[i].id) == Some(ws[i])
  {
    if i > 0 {
      assert ws[1..][i - 1] == ws[i];
      assert forall a, b :: 0 <= a < b < |ws[1..]| ==> ws[1..][a].id == ws[a + 1].id && ws[1..][b].id == ws[b + 1].id;
      FindAt(ws[1..], i - 1);
    }
  }
}
