/**
 Graph v0.1 to v0.2 (src/dynamic_store.rs): workspace policy moves from the nodes into a catalog
 owned by the graph. This file holds the specification functions; `GraphDocument` runs them in
 place and `CatalogTopology` proves what they achieve.
 */
module CatalogMigration {
  import opened Wrappers
  import opened Ordered
  import opened GraphModel

  /**
   The environment of one load. `digest` is the first 16 hex digits of BLAKE3, `head` and `branch`
   are the trimmed outputs of successful git commands in a directory.
   */
  datatype Env = Env(
    repoRoot: string,
    digest: string -> string,
    head: string -> Option<string>,
    branch: string -> Option<string>,
    pathExists: string -> bool)

  /** Environment plus the id of the dynamic run, which salts every legacy workspace id. */
  datatype Ctx = Ctx(env: Env, runId: string)

  /** Where a legacy workspace id comes from. */
  datatype Origin = FromPath(path: string) | FromNode(node: string) | FromRoot(group: string, root: string)

  function Identity(o: Origin): string {
    match o
    case FromPath(path) => "path:" + path
    case FromNode(node) => "node:" + node
    case FromRoot(group, root) => "group:" + group + ":root:" + root
  }

  function IdOf(ctx: Ctx, o: Origin): string {
    "workspace-legacy-" + ctx.env.digest(ctx.runId + ":" + Identity(o))
  }

  /** `normalized_path` on a case-sensitive platform. */
  function NormalizedPath(p: string): string {
    seq(|p|, i requires 0 <= i < |p| => if p[i] == '\\' then '/' else p[i])
  }

  function Join(a: string, b: string): string {
    if a == "" || a[|a| - 1] == '/' then a + b else a + "/" + b
  }

  function LegacyPath(env: Env, id: string): string {
    Join(Join(env.repoRoot, ".sasuke/legacy-workspaces"), id)
  }

  datatype Descriptor = Descriptor(id: string, path: string, parent: string, creator: string, forced: bool)

  /** The two maps that the migration keeps in step with the nodes. */
  datatype Tables = Tables(ids: map<string, string>, descriptors: map<string, Descriptor>)

  datatype Work = Work(nodes: seq<NodeValue>, tables: Tables)

  // ---- First pass: nodes ----

  predicate Named(n: NodeValue) {
    Present(n.id)
  }

  predicate InWorktree(n: NodeValue) {
    n.place.mode == Some("worktree")
  }

  function UsablePath(n: NodeValue): Option<string> {
    if Present(n.place.workspacePath) then n.place.workspacePath else None
  }

  function NodeOrigin(n: NodeValue): Origin
    requires Named(n)
  {
    match UsablePath(n)
    case Some(path) => FromPath(NormalizedPath(path))
    case None => FromNode(n.id.value)
  }

  function InitialId(ctx: Ctx, n: NodeValue): string
    requires Named(n)
  {
    if InWorktree(n) then IdOf(ctx, NodeOrigin(n)) else MAIN_WORKSPACE
  }

  function InitialDescriptor(ctx: Ctx, n: NodeValue): Descriptor
    requires Named(n)
  {
    var id := InitialId(ctx, n);
    Descriptor(id, UsablePath(n).GetOr(LegacyPath(ctx.env, id)), MAIN_WORKSPACE,
               n.place.groupId.GetOr("legacy-" + n.id.value), false)
  }

  function Placed(n: NodeValue, ws: string): NodeValue {
    n.(place := n.place.(mode := None, workspacePath := None, workspaceId := Some(ws)))
  }

  function NodeStep(ctx: Ctx, t: Tables, n: NodeValue): Tables
    requires Named(n)
  {
    var id := InitialId(ctx, n);
    Tables(t.ids[n.id.value := id],
           if InWorktree(n) && id !in t.descriptors
           then t.descriptors[id := InitialDescriptor(ctx, n)] else t.descriptors)
  }

  predicate AllNamed(nodes: seq<NodeValue>) {
    forall i :: 0 <= i < |nodes| ==> Named(nodes[i])
  }

  function AfterNodes(ctx: Ctx, nodes: seq<NodeValue>, k: nat): Tables
    requires k <= |nodes| && forall i :: 0 <= i < k ==> Named(nodes[i])
  {
    if k == 0 then Tables(map[], map[])
    else
      NodeStep(ctx, AfterNodes(ctx, nodes, k - 1), nodes[k - 1])
  }

  function PlaceNode(ctx: Ctx, n: NodeValue): NodeValue
    requires Named(n)
  {
    Placed(n, InitialId(ctx, n))
  }

  function PlacedNodes(ctx: Ctx, nodes: seq<NodeValue>): seq<NodeValue>
    requires AllNamed(nodes)
  {
    seq(|nodes|, i requires 0 <= i < |nodes| => PlaceNode(ctx, nodes[i]))
  }

  // ---- Second pass: groups ----

  function GroupError(g: GroupValue): Option<Error> {
    if !Present(g.id) then Some(MissingField("id"))
    else if g.rootNodeIds.None? then Some(MissingField("rootNodeIds"))
    else None
  }

  predicate AllReadable(groups: seq<GroupValue>) {
    forall i :: 0 <= i < |groups| ==> GroupError(groups[i]).None?
  }

  /** The workspace of the node that created the group, or the main workspace. */
  function Target(ids: map<string, string>, g: GroupValue): string {
    if g.createdByNodeId.Some? && g.createdByNodeId.value in ids then ids[g.createdByNodeId.value]
    else MAIN_WORKSPACE
  }

  predicate InChain(n: NodeValue, group: string, root: string) {
    n.place.groupId == Some(group) && n.place.chainId == Some(root) && n.id.Some?
  }

  function RemapNode(n: NodeValue, group: string, root: string, ws: string): NodeValue {
    if InChain(n, group, root) then n.(place := n.place.(workspaceId := Some(ws))) else n
  }

  function RemapNodes(nodes: seq<NodeValue>, group: string, root: string, ws: string): seq<NodeValue> {
    seq(|nodes|, i requires 0 <= i < |nodes| => RemapNode(nodes[i], group, root, ws))
  }

  function RemapIds(nodes: seq<NodeValue>, group: string, root: string, ws: string,
                    ids: map<string, string>, k: nat): map<string, string>
    requires k <= |nodes|
  {
    if k == 0 then ids
    else
      var before := RemapIds(nodes, group, root, ws, ids, k - 1);
      if InChain(nodes[k - 1], group, root) then before[nodes[k - 1].id.value := ws] else before
  }

  function SyntheticDescriptor(ctx: Ctx, group: string, root: string, target: string): Descriptor {
    var id := IdOf(ctx, FromRoot(group, root));
    Descriptor(id, LegacyPath(ctx.env, id), target, group, true)
  }

  /** The workspace of `d` enters the catalog and takes over one chain. */
  function TakeOver(w: Work, group: string, root: string, d: Descriptor): Work {
    Work(RemapNodes(w.nodes, group, root, d.id),
         Tables(RemapIds(w.nodes, group, root, d.id, w.tables.ids, |w.nodes|),
                w.tables.descriptors[d.id := d]))
  }

  function RootStep(ctx: Ctx, w: Work, group: string, target: string, root: string): Work {
    var ids := w.tables.ids;
    var descriptors := w.tables.descriptors;
    if root !in ids then w
    else if ids[root] == MAIN_WORKSPACE then
      TakeOver(w, group, root, SyntheticDescriptor(ctx, group, root, target))
    else if ids[root] in descriptors then
      var d := descriptors[ids[root]];
      w.(tables := Tables(ids, descriptors[ids[root] := d.(parent := target, creator := group)]))
    else w
  }

  function AfterRoots(ctx: Ctx, w: Work, group: string, target: string, roots: seq<string>, m: nat): Work
    requires m <= |roots|
  {
    if m == 0 then w
    else RootStep(ctx, AfterRoots(ctx, w, group, target, roots, m - 1), group, target, roots[m - 1])
  }

  function GroupStep(ctx: Ctx, w: Work, g: GroupValue): Work
    requires GroupError(g).None?
  {
    var roots := g.rootNodeIds.value;
    AfterRoots(ctx, w, g.id.value, Target(w.tables.ids, g), roots, |roots|)
  }

  function AfterGroups(ctx: Ctx, w: Work, groups: seq<GroupValue>, j: nat): Work
    requires j <= |groups| && AllReadable(groups)
  {
    if j == 0 then w else GroupStep(ctx, AfterGroups(ctx, w, groups, j - 1), groups[j - 1])
  }

  // ---- Catalog ----

  const UNKNOWN_HEAD := "legacy-unknown"

  function MainHead(env: Env): string {
    env.head(env.repoRoot).GetOr(UNKNOWN_HEAD)
  }

  function LegacyBranch(env: Env, d: Descriptor): Option<string> {
    if !d.forced && env.pathExists(d.path) && env.branch(d.path).Some?
       && env.branch(d.path).value != "" && env.branch(d.path).value != "HEAD"
    then env.branch(d.path) else None
  }

  function LegacyWorkspace(ctx: Ctx, d: Descriptor, createdAt: string, updatedAt: string, closed: bool): Workspace {
    var env := ctx.env;
    var branch := LegacyBranch(env, d);
    var fork := if !d.forced && env.pathExists(d.path) then env.head(d.path).GetOr(MainHead(env)) else MainHead(env);
    Workspace(VERSION, d.id, ctx.runId, Worktree, Runtime, env.repoRoot, d.path,
              Some(branch.GetOr("legacy/" + d.id)), Some(d.parent), Some(d.creator), fork, None,
              if d.forced || closed || branch.None? then WsReleased else WsActive,
              createdAt, updatedAt)
  }

  function MainWorkspace(ctx: Ctx, createdAt: string, updatedAt: string): Workspace {
    Workspace(VERSION, MAIN_WORKSPACE, ctx.runId, Main, User, ctx.env.repoRoot, ctx.env.repoRoot,
              None, None, None, MainHead(ctx.env), None, WsActive, createdAt, updatedAt)
  }

  /** The status of each named group; a later group with the same id wins. */
  function GroupStatuses(groups: seq<GroupValue>, k: nat): map<string, string>
    requires k <= |groups|
  {
    if k == 0 then map[]
    else
      var before := GroupStatuses(groups, k - 1);
      var g := groups[k - 1];
      if g.id.Some? && g.status.Some? then before[g.id.value := g.status.value] else before
  }

  function Closed(statuses: map<string, string>, group: string): bool {
    group in statuses && statuses[group] == "closed"
  }

  function Catalog(ctx: Ctx, descriptors: map<string, Descriptor>, statuses: map<string, string>,
                   createdAt: string, updatedAt: string): seq<Workspace>
  {
    var keys := SortedKeys(descriptors.Keys);
    [MainWorkspace(ctx, createdAt, updatedAt)] +
    seq(|keys|, i requires 0 <= i < |keys| =>
      assert keys[i] in keys;
      var d := descriptors[keys[i]];
      LegacyWorkspace(ctx, d, createdAt, updatedAt, Closed(statuses, d.creator)))
  }

  lemma {:induction false} CatalogEntry(
    ctx: Ctx, descriptors: map<string, Descriptor>, statuses: map<string, string>, createdAt: string, updatedAt: string, i: nat)
    requires i < |SortedKeys(descriptors.Keys)|
    ensures var keys := SortedKeys(descriptors.Keys); var all := Catalog(ctx, descriptors, statuses, createdAt, updatedAt);
      && |all| == |keys| + 1 && keys[i] in descriptors
      && all[i + 1] == LegacyWorkspace(ctx, descriptors[keys[i]], createdAt, updatedAt,
                                       Closed(statuses, descriptors[keys[i]].creator))
  {
    assert SortedKeys(descriptors.Keys)[i] in SortedKeys(descriptors.Keys);
  }

  // ---- Third pass: group links ----

  function Children(ids: map<string, string>, roots: seq<string>): seq<string>
    requires forall i :: 0 <= i < |roots| ==> roots[i] in ids
  {
    seq(|roots|, i requires 0 <= i < |roots| => ids[roots[i]])
  }

  predicate RootsKnown(ids: map<string, string>, g: GroupValue) {
    g.rootNodeIds.Some? && forall i :: 0 <= i < |g.rootNodeIds.value| ==> g.rootNodeIds.value[i] in ids
  }

  function LinkedGroup(ids: map<string, string>, g: GroupValue): GroupValue
    requires RootsKnown(ids, g)
  {
    g.(targetWorkspaceId := Some(Target(ids, g)),
       childWorkspaceIds := Some(Children(ids, g.rootNodeIds.value)))
  }

  predicate AllRootsKnown(ids: map<string, string>, groups: seq<GroupValue>) {
    forall i :: 0 <= i < |groups| ==> RootsKnown(ids, groups[i])
  }

  function LinkedGroups(ids: map<string, string>, groups: seq<GroupValue>): seq<GroupValue>
    requires AllRootsKnown(ids, groups)
  {
    seq(|groups|, i requires 0 <= i < |groups| => LinkedGroup(ids, groups[i]))
  }

  // ---- The whole step ----

  predicate RunReadable(v: GraphValue) {
    v.run.Some? && Present(v.run.value.id) && Present(v.run.value.startedAt) && Present(v.run.value.updatedAt)
  }

  /** Everything that must be present before the two maps can be built. */
  predicate Readable(v: GraphValue) {
    && RunReadable(v)
    && v.groups.Some? && AllReadable(v.groups.value)
    && v.nodes.Some? && AllNamed(v.nodes.value)
  }

  function CtxOf(env: Env, v: GraphValue): Ctx
    requires RunReadable(v)
  {
    Ctx(env, v.run.value.id.value)
  }

  function FinalWork(env: Env, v: GraphValue): Work
    requires Readable(v)
  {
    var ctx := CtxOf(env, v);
    var nodes := v.nodes.value;
    AfterGroups(ctx, Work(PlacedNodes(ctx, nodes), AfterNodes(ctx, nodes, |nodes|)), v.groups.value, |v.groups.value|)
  }

  /** The migration succeeds exactly on these values. */
  predicate Migratable(env: Env, v: GraphValue) {
    Readable(v) && AllRootsKnown(FinalWork(env, v).tables.ids, v.groups.value)
  }

  function MigratedV01(env: Env, v: GraphValue): GraphValue
    requires Migratable(env, v)
  {
    var ctx := CtxOf(env, v);
    var w := FinalWork(env, v);
    var run := v.run.value;
    GraphValue(
      Some(CATALOG), v.run, Some(w.nodes), Some(LinkedGroups(w.tables.ids, v.groups.value)),
      Some(Catalog(ctx, w.tables.descriptors, GroupStatuses(v.groups.value, |v.groups.value|),
                   run.startedAt.value, run.updatedAt.value)),
      v.proposals)
  }
}
