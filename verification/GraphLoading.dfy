/**
 Loading a dynamic graph through its versioned storage boundary (src/dynamic_store.rs): decode,
 migrate, validate, then write the leaf projections and the graph, each atomically.
 */
module GraphLoading {
  import opened Wrappers
  import opened LeafLifecycle
  import opened GraphModel
  import opened CatalogMigration
  import opened LeafMigration
  import GraphDocument

  // ---- The version pipeline ----

  predicate HasCatalog(v: GraphValue) {
    && v.workspaces.Some?
    && v.nodes.Some? && (forall i :: 0 <= i < |v.nodes.value| ==> v.nodes.value[i].place.workspaceId.Some?)
    && v.groups.Some? && (forall i :: 0 <= i < |v.groups.value| ==>
                            v.groups.value[i].targetWorkspaceId.Some? && v.groups.value[i].childWorkspaceIds.Some?)
  }

  function FromV02(v: GraphValue): Option<GraphValue> {
    if MigratableV02(v) then Some(MigratedV03(MigratedV02(v))) else None
  }

  /** The value at the current version, and whether it had to be migrated; `None` is an error. */
  function Upgrade(env: Env, v: GraphValue): Option<(GraphValue, bool)> {
    if v.version.None? then None
    else if v.version.value == CURRENT then Some((v, false))
    else
      var next :=
        if v.version.value == LEAF_EXECUTION then (if v.nodes.Some? then Some(MigratedV03(v)) else None)
        else if v.version.value == CATALOG then FromV02(v)
        else if v.version.value == LEGACY then
          if HasCatalog(v) then FromV02(v.(version := Some(CATALOG)))
          else if Migratable(env, v) then FromV02(MigratedV01(env, v))
          else None
        else None;
      if next.Some? then Some((next.value, true)) else None
  }

  /** `dynamic_graph_from_value_with_migration`. */
  function FromValue(env: Env, v: GraphValue): Option<(Graph, bool)> {
    var up := Upgrade(env, v);
    if up.None? || !DecodableGraph(up.value.0) then None
    else
      var g := DecodeGraph(up.value.0);
      if ValidGraph(g) then Some((g, up.value.1)) else None
  }

  method GraphFromValue(env: Env, v: GraphValue) returns (r: Result<(Graph, bool), Error>)
    ensures r.Ok? <==> FromValue(env, v).Some?
    ensures r.Ok? ==> r.value == FromValue(env, v).value
  {
    if v.version.None? {
      return Err(MissingField("version"));
    }
    var doc := new GraphDocument.Document(v);
    var version := v.version.value;
    var migrated := version != CURRENT;
    var step: Result<(), Error> := Ok(());
    if version == LEAF_EXECUTION {
      step := doc.MigrateV03();
    } else if version == CATALOG || version == LEGACY {
      if version == LEGACY {
        if HasCatalog(v) {
          doc.version := Some(CATALOG);
        } else {
          step := doc.MigrateV01(env);
        }
      }
      if step.Ok? {
        step := doc.MigrateV02();
      }
      if step.Ok? {
        step := doc.MigrateV03();
      }
    } else if version != CURRENT {
      return Err(UnsupportedVersion(version));
    }
    if step.Err? {
      return Err(step.error);
    }
    var value := doc.View();
    assert Upgrade(env, v) == Some((value, migrated));
    if !DecodableGraph(value) {
      return Err(DecodeFailed);
    }
    var g := DecodeGraph(value);
    if !ValidGraph(g) {
      return Err(Invalid);
    }
    r := Ok((g, migrated));
  }

  // ---- Disk ----

  /** The storage version recorded in a leaf file: absent, a number, or something else. */
  datatype Stored = NoVersion | Version(n: nat) | NotANumber

  datatype LeafFile = LeafFile(content: NodeValue, storage: Stored)

  predicate Unreadable(s: Stored) {
    s.NotANumber? || (s.Version? && s.n > U32_MAX)
  }

  function Max(a: nat, b: nat): nat {
    if a < b then b else a
  }

  function StoredVersion(s: Stored): nat {
    if s.Version? then s.n else 0
  }

  /** `write_dynamic_node_state`: never lowers the storage version of an existing file. */
  function Written(file: Option<LeafFile>, node: NodeState): Option<LeafFile> {
    if file.Some? && Unreadable(file.value.storage) then None
    else
      var current := if file.Some? then StoredVersion(file.value.storage) else 0;
      Some(LeafFile(EncodeNode(node), Version(Max(node.storageVersion, current))))
  }

  /** The leaf files after `k` nodes were visited, and whether a write failed on the way. */
  datatype Progress = Progress(leaves: map<string, LeafFile>, failed: bool)

  function Project(p: Progress, node: NodeState): Progress {
    if p.failed || node.id !in p.leaves then p
    else
      var written := Written(Some(p.leaves[node.id]), node);
      if written.None? then p.(failed := true) else Progress(p.leaves[node.id := written.value], false)
  }

  function WriteUpTo(leaves: map<string, LeafFile>, nodes: seq<NodeState>, k: nat): Progress
    requires k <= |nodes|
  {
    if k == 0 then Progress(leaves, false) else Project(WriteUpTo(leaves, nodes, k - 1), nodes[k - 1])
  }

  datatype Disk = Disk(graph: GraphValue, leaves: map<string, LeafFile>)

  /** `load_dynamic_graph`: the disk afterwards and the graph, if loading succeeded. */
  function Load(env: Env, d: Disk): (Disk, Option<Graph>) {
    var r := FromValue(env, d.graph);
    if r.None? then (d, None)
    else
      var (g, migrated) := r.value;
      if !migrated then (d, Some(g))
      else
        var p := WriteUpTo(d.leaves, g.nodes, |g.nodes|);
        if p.failed then (d.(leaves := p.leaves), None)
        else (Disk(EncodeGraph(g), p.leaves), Some(g))
  }

  /** The disk when a load is interrupted after visiting `k` nodes. */
  function Interrupted(env: Env, d: Disk, k: nat): Disk {
    var r := FromValue(env, d.graph);
    if r.None? || !r.value.1 then d
    else
      var nodes := r.value.0.nodes;
      d.(leaves := WriteUpTo(d.leaves, nodes, if k <= |nodes| then k else |nodes|).leaves)
  }

  class Storage {
    var graph: GraphValue
    var leaves: map<string, LeafFile>

    function View(): Disk
      reads this
    {
      Disk(graph, leaves)
    }

    method WriteNodeState(node: NodeState) returns (ok: bool)
      modifies this`leaves
      ensures var file := if node.id in old(leaves) then Some(old(leaves)[node.id]) else None;
              && (ok <==> Written(file, node).Some?)
              && leaves == if ok then old(leaves)[node.id := Written(file, node).value] else old(leaves)
    {
      var version := node.storageVersion;
      if node.id in leaves {
        match leaves[node.id].storage {
          case NotANumber => return false;
          case Version(n) =>
            if n > U32_MAX {
              return false;
            }
            if version < n {
              version := n;
            }
          case NoVersion =>
        }
      }
      leaves := leaves[node.id := LeafFile(EncodeNode(node), Version(version))];
      ok := true;
    }

    /** Every state this method passes through is `WriteUpTo` of some prefix: what a crash can leave behind. */
    method PersistProjections(nodes: seq<NodeState>) returns (ok: bool)
      modifies this`leaves
      ensures Progress(leaves, !ok) == WriteUpTo(old(leaves), nodes, |nodes|)
    {
      var i := 0;
      while i < |nodes|
        invariant 0 <= i <= |nodes|
        invariant Progress(leaves, false) == WriteUpTo(old(leaves), nodes, i)
      {
        if nodes[i].id in leaves {
          var written := WriteNodeState(nodes[i]);
          if !written {
            FailureSticks(old(leaves), nodes, i + 1, |nodes|);
            return false;
          }
        }
        i := i + 1;
      }
      ok := true;
    }

    method LoadGraph(env: Env) returns (r: Result<Graph, Error>)
      modifies this
      ensures View() == Load(env, old(View())).0
      ensures r.Ok? <==> Load(env, old(View())).1.Some?
      ensures r.Ok? ==> Some(r.value) == Load(env, old(View())).1
    {
      var loaded := GraphFromValue(env, graph);
      if loaded.Err? {
        return Err(loaded.error);
      }
      var (g, migrated) := loaded.value;
      if migrated {
        var ok := PersistProjections(g.nodes);
        if !ok {
          return Err(Invalid);
        }
        graph := EncodeGraph(g);
      }
      r := Ok(g);
    }
  }

  lemma {:induction false} FailureSticks(leaves: map<string, LeafFile>, nodes: seq<NodeState>, k: nat, n: nat)
    requires k <= n <= |nodes| && WriteUpTo(leaves, nodes, k).failed
    ensures WriteUpTo(leaves, nodes, n) == WriteUpTo(leaves, nodes, k)
  {
    if k < n {
      FailureSticks(leaves, nodes, k, n - 1);
    }
  }

  // ---- Closed form of the projections ----

  /** The last of the first `k` nodes with this id. */
  function Writer(nodes: seq<NodeState>, k: nat, id: string): Option<NodeState>
    requires k <= |nodes|
  {
    if k == 0 then None
    else if nodes[k - 1].id == id then Some(nodes[k - 1])
    else Writer(nodes, k - 1, id)
  }

  /** The greatest storage version among `base` and the first `k` nodes with this id. */
  function Watermark(base: nat, nodes: seq<NodeState>, k: nat, id: string): nat
    requires k <= |nodes|
  {
    if k == 0 then base
    else
      var before := Watermark(base, nodes, k - 1, id);
      if nodes[k - 1].id == id then Max(nodes[k - 1].storageVersion, before) else before
  }

  function FileAfter(file: LeafFile, nodes: seq<NodeState>, k: nat, id: string): LeafFile
    requires k <= |nodes|
  {
    match Writer(nodes, k, id)
    case None => file
    case Some(node) => LeafFile(EncodeNode(node), Version(Watermark(StoredVersion(file.storage), nodes, k, id)))
  }

  predicate Blocks(leaves: map<string, LeafFile>, node: NodeState) {
    node.id in leaves && Unreadable(leaves[node.id].storage)
  }

  predicate NoBlock(leaves: map<string, LeafFile>, nodes: seq<NodeState>, k: nat)
    requires k <= |nodes|
  {
    forall i :: 0 <= i < k ==> !Blocks(leaves, nodes[i])
  }

  predicate SmallVersions(nodes: seq<NodeState>) {
    forall i :: 0 <= i < |nodes| ==> nodes[i].storageVersion <= U32_MAX
  }

  lemma {:induction false} WatermarkFacts(base: nat, nodes: seq<NodeState>, k: nat, id: string)
    requires k <= |nodes| && SmallVersions(nodes)
    ensures base <= Watermark(base, nodes, k, id)
    ensures base <= U32_MAX ==> Watermark(base, nodes, k, id) <= U32_MAX
    ensures Writer(nodes, k, id).None? ==> Watermark(base, nodes, k, id) == base
  {
    if k > 0 {
      WatermarkFacts(base, nodes, k - 1, id);
    }
  }

  /** While nothing blocks, every file is what its writers so far make of it. */
  lemma {:induction false} ProjectionsClosedForm(leaves: map<string, LeafFile>, nodes: seq<NodeState>, k: nat)
    requires k <= |nodes| && SmallVersions(nodes) && NoBlock(leaves, nodes, k)
    ensures WriteUpTo(leaves, nodes, k) ==
            Progress(map id | id in leaves :: FileAfter(leaves[id], nodes, k, id), false)
  {
    if k > 0 {
      ProjectionsClosedForm(leaves, nodes, k - 1);
      var node := nodes[k - 1];
      if node.id in leaves {
        WatermarkFacts(StoredVersion(leaves[node.id].storage), nodes, k - 1, node.id);
      }
    }
  }

  /** Where the writes stop: at the first blocking node, or at the end. */
  function Stop(leaves: map<string, LeafFile>, nodes: seq<NodeState>, k: nat): (s: nat)
    requires k <= |nodes|
    ensures s <= k && NoBlock(leaves, nodes, s) && (s < k ==> Blocks(leaves, nodes[s]))
  {
    if k == 0 then 0
    else
      var s := Stop(leaves, nodes, k - 1);
      if s < k - 1 || Blocks(leaves, nodes[k - 1]) then s else k
  }

  lemma {:induction false} WritesStop(leaves: map<string, LeafFile>, nodes: seq<NodeState>, n: nat)
    requires n <= |nodes| && SmallVersions(nodes)
    ensures var s := Stop(leaves, nodes, n);
            WriteUpTo(leaves, nodes, n) == Progress(WriteUpTo(leaves, nodes, s).leaves, s < n)
  {
    var s := Stop(leaves, nodes, n);
    ProjectionsClosedForm(leaves, nodes, s);
    if s < n {
      var id := nodes[s].id;
      BlockedUnwritten(leaves, nodes, s, id);
      FailureSticks(leaves, nodes, s + 1, n);
    }
  }

  lemma {:induction false} BlockedUnwritten(leaves: map<string, LeafFile>, nodes: seq<NodeState>, k: nat, id: string)
    requires k <= |nodes| && NoBlock(leaves, nodes, k) && id in leaves && Unreadable(leaves[id].storage)
    ensures Writer(nodes, k, id).None?
  {
    if k > 0 {
      BlockedUnwritten(leaves, nodes, k - 1, id);
    }
  }

  // ---- Convergence ----

  lemma {:induction false} WatermarkAbsorbs(base: nat, nodes: seq<NodeState>, k: nat, n: nat, id: string)
    requires k <= n <= |nodes| && SmallVersions(nodes)
    ensures Watermark(Watermark(base, nodes, k, id), nodes, n, id) == Watermark(base, nodes, n, id)
  {
    if n > k {
      WatermarkAbsorbs(base, nodes, k, n - 1, id);
    } else {
      WatermarkRepeats(base, nodes, k, k, id);
    }
  }

  lemma {:induction false} WatermarkRepeats(base: nat, nodes: seq<NodeState>, j: nat, k: nat, id: string)
    requires j <= k <= |nodes| && SmallVersions(nodes)
    ensures Watermark(Watermark(base, nodes, k, id), nodes, j, id) == Watermark(base, nodes, k, id)
  {
    if j > 0 {
      WatermarkRepeats(base, nodes, j - 1, k, id);
      if nodes[j - 1].id == id {
        WatermarkCovers(base, nodes, j - 1, k, id);
      }
    }
  }

  lemma {:induction false} WatermarkCovers(base: nat, nodes: seq<NodeState>, i: nat, k: nat, id: string)
    requires i < k <= |nodes| && nodes[i].id == id
    ensures nodes[i].storageVersion <= Watermark(base, nodes, k, id)
  {
    if i < k - 1 {
      WatermarkCovers(base, nodes, i, k - 1, id);
    }
  }

  lemma {:induction false} WriterPersists(nodes: seq<NodeState>, k: nat, n: nat, id: string)
    requires k <= n <= |nodes| && Writer(nodes, k, id).Some?
    ensures Writer(nodes, n, id).Some?
  {
    if k < n {
      WriterPersists(nodes, k, n - 1, id);
    }
  }

  /** Writing a prefix first makes no difference to writing a longer prefix. */
  lemma {:induction false} PrefixAbsorbed(leaves: map<string, LeafFile>, nodes: seq<NodeState>, k: nat, n: nat)
    requires k <= n <= |nodes| && SmallVersions(nodes) && NoBlock(leaves, nodes, n)
    ensures var partial := WriteUpTo(leaves, nodes, k).leaves;
            NoBlock(partial, nodes, n) && WriteUpTo(partial, nodes, n) == WriteUpTo(leaves, nodes, n)
  {
    var partial := WriteUpTo(leaves, nodes, k).leaves;
    ProjectionsClosedForm(leaves, nodes, k);
    ProjectionsClosedForm(leaves, nodes, n);
    forall id | id in leaves
      ensures Unreadable(partial[id].storage) ==> Unreadable(leaves[id].storage)
      ensures FileAfter(partial[id], nodes, n, id) == FileAfter(leaves[id], nodes, n, id)
      ensures Writer(nodes, k, id).None? ==> partial[id] == leaves[id]
    {
      var base := StoredVersion(leaves[id].storage);
      WatermarkFacts(base, nodes, k, id);
      WatermarkAbsorbs(base, nodes, k, n, id);
      if Writer(nodes, k, id).Some? {
        WriterPersists(nodes, k, n, id);
      }
    }
    ProjectionsClosedForm(partial, nodes, n);
    assert (map id | id in partial :: FileAfter(partial[id], nodes, n, id)) ==
           (map id | id in leaves :: FileAfter(leaves[id], nodes, n, id));
  }

  /** Blocking files are the same before and after any number of projection writes. */
  lemma {:induction false} SameStop(leaves: map<string, LeafFile>, nodes: seq<NodeState>, k: nat, n: nat)
    requires k <= n <= |nodes| && SmallVersions(nodes) && NoBlock(leaves, nodes, k)
    ensures Stop(WriteUpTo(leaves, nodes, k).leaves, nodes, n) == Stop(leaves, nodes, n)
  {
    var partial := WriteUpTo(leaves, nodes, k).leaves;
    ProjectionsClosedForm(leaves, nodes, k);
    forall id | id in leaves
      ensures Unreadable(partial[id].storage) <==> Unreadable(leaves[id].storage)
    {
      WatermarkFacts(StoredVersion(leaves[id].storage), nodes, k, id);
      if Unreadable(leaves[id].storage) {
        BlockedUnwritten(leaves, nodes, k, id);
      } else if Writer(nodes, k, id).Some? {
        assert StoredVersion(leaves[id].storage) <= U32_MAX;
      }
    }
    var s, t := Stop(partial, nodes, n), Stop(leaves, nodes, n);
    assert s < n ==> Blocks(leaves, nodes[s]);
    assert t < n ==> Blocks(partial, nodes[t]);
  }

  lemma {:induction false} RerunWrites(leaves: map<string, LeafFile>, nodes: seq<NodeState>, k: nat)
    requires k <= |nodes| && SmallVersions(nodes)
    ensures var n := |nodes|;
            WriteUpTo(WriteUpTo(leaves, nodes, k).leaves, nodes, n) == WriteUpTo(leaves, nodes, n)
  {
    var n := |nodes|;
    var s := Stop(leaves, nodes, n);
    var j := Stop(leaves, nodes, k);
    WritesStop(leaves, nodes, k);
    WritesStop(leaves, nodes, n);
    assert s < n ==> Blocks(leaves, nodes[s]);
    assert j <= s;
    var partial := WriteUpTo(leaves, nodes, j).leaves;
    PrefixAbsorbed(leaves, nodes, j, s);
    SameStop(leaves, nodes, j, n);
    WritesStop(partial, nodes, n);
  }

  lemma {:induction false} DecodedVersionsSmall(env: Env, v: GraphValue)
    requires FromValue(env, v).Some?
    ensures SmallVersions(FromValue(env, v).value.0.nodes)
  {
    var value := Upgrade(env, v).value.0;
    var g := DecodeGraph(value);
    forall i | 0 <= i < |g.nodes| ensures g.nodes[i].storageVersion <= U32_MAX {
      assert Decodable(value.nodes.value[i]);
    }
  }

  /** Interrupt a load anywhere before its graph write and load again: the outcome is that of one load. */
  lemma {:induction false} CrashConverges(env: Env, d: Disk, k: nat)
    ensures Load(env, Interrupted(env, d, k)) == Load(env, d)
  {
    var r := FromValue(env, d.graph);
    if r.Some? && r.value.1 {
      var nodes := r.value.0.nodes;
      DecodedVersionsSmall(env, d.graph);
      RerunWrites(d.leaves, nodes, if k <= |nodes| then k else |nodes|);
    }
  }

  ghost function InterruptedOften(env: Env, d: Disk, ks: seq<nat>): Disk
    decreases |ks|
  {
    if ks == [] then d else InterruptedOften(env, Interrupted(env, d, ks[0]), ks[1..])
  }

  /** Any number of interruptions. */
  lemma {:induction false} ManyCrashesConverge(env: Env, d: Disk, ks: seq<nat>)
    ensures Load(env, InterruptedOften(env, d, ks)) == Load(env, d)
    decreases |ks|
  {
    if ks != [] {
      ManyCrashesConverge(env, Interrupted(env, d, ks[0]), ks[1..]);
      CrashConverges(env, d, ks[0]);
    }
  }

  /** Whether some leaf file of the graph has a storage version that cannot be read. */
  ghost predicate SomeUnreadable(leaves: map<string, LeafFile>, nodes: seq<NodeState>) {
    exists i :: 0 <= i < |nodes| && nodes[i].id in leaves &&
      (leaves[nodes[i].id].storage == NotANumber ||
       (leaves[nodes[i].id].storage.Version? && leaves[nodes[i].id].storage.n > 0xFFFF_FFFF))
  }

  /**
   What a load leaves on disk. Without a migration nothing is written; with one, every leaf file holds its last
   writer's content and the greatest version, and the graph is replaced, unless a leaf file is unreadable: then
   the load fails and the graph stays.
   */
  lemma {:induction false} LoadWrites(env: Env, d: Disk)
    ensures var (after, loaded) := Load(env, d);
      match FromValue(env, d.graph)
      case None => after == d && loaded == None
      case Some((g, migrated)) =>
        if !migrated then after == d && loaded == Some(g)
        else if SomeUnreadable(d.leaves, g.nodes) then after.graph == d.graph && loaded == None
        else
          && loaded == Some(g) && after.graph == EncodeGraph(g)
          && after.leaves == map id | id in d.leaves :: FileAfter(d.leaves[id], g.nodes, |g.nodes|, id)
  {
    var r := FromValue(env, d.graph);
    if r.Some? && r.value.1 {
      var nodes := r.value.0.nodes;
      var s := Stop(d.leaves, nodes, |nodes|);
      DecodedVersionsSmall(env, d.graph);
      WritesStop(d.leaves, nodes, |nodes|);
      UnreadableIff(d.leaves, nodes, s);
      if s == |nodes| {
        ProjectionsClosedForm(d.leaves, nodes, |nodes|);
      }
    }
  }

  lemma {:induction false} UnreadableIff(leaves: map<string, LeafFile>, nodes: seq<NodeState>, s: nat)
    requires s <= |nodes| && NoBlock(leaves, nodes, s) && (s < |nodes| ==> Blocks(leaves, nodes[s]))
    ensures SomeUnreadable(leaves, nodes) <==> s < |nodes|
  {
    if SomeUnreadable(leaves, nodes) {
      var i :| 0 <= i < |nodes| && nodes[i].id in leaves &&
        (leaves[nodes[i].id].storage == NotANumber ||
         (leaves[nodes[i].id].storage.Version? && leaves[nodes[i].id].storage.n > 0xFFFF_FFFF));
      assert Blocks(leaves, nodes[i]);
    }
  }

  /** The stored form of a node: current fields only, and no storage version, which is kept by its own file. */
  lemma {:induction false} StoredForm(n: NodeState)
    ensures var v := EncodeNode(n);
      && v.id == Some(n.id) && v.status == Some(n.status) && v.rest == n.rest && v.storageVersion == None
      && v.startedAt == n.startedAt && v.finishedAt == n.finishedAt
      && v.place == Placement(n.groupId, Some(n.chainId), None, None, Some(n.workspaceId))
      && v.exec.executionId == n.exec.executionId && v.exec.lifecycleRevision == Some(n.exec.revision)
      && v.exec.lifecycleUpdatedAt == n.exec.updatedAt && v.exec.executionRevision == None && v.exec.executionUpdatedAt == None
  {
  }

  // ---- A further load ----

  /** The graph as the next load sees it: storage versions live in the leaf files only. */
  function Forget(g: Graph): Graph {
    g.(nodes := seq(|g.nodes|, i requires 0 <= i < |g.nodes| => g.nodes[i].(storageVersion := 0)))
  }

  lemma {:induction false} ParseNamed(p: Phase)
    ensures ParsePhase(PhaseName(p)) == Some(p)
  {
  }

  predicate Bounded(g: Graph) {
    forall i :: 0 <= i < |g.nodes| ==> KnownStatus(g.nodes[i].status) && g.nodes[i].exec.revision <= U64_MAX
  }

  predicate KnownStatuses(g: Graph) {
    KnownRunStatus(g.run.status) && forall i :: 0 <= i < |g.groups| ==> KnownGroupStatus(g.groups[i].status)
  }

  /** Encoding and decoding a decoded graph loses the storage versions and nothing else. */
  lemma {:induction false} EncodedDecodes(g: Graph)
    requires Bounded(g) && KnownStatuses(g)
    ensures DecodableGraph(EncodeGraph(g)) && DecodeGraph(EncodeGraph(g)) == Forget(g)
  {
    var v := EncodeGraph(g);
    forall i | 0 <= i < |g.nodes|
      ensures Decodable(v.nodes.value[i])
      ensures DecodeNode(v.nodes.value[i]) == g.nodes[i].(storageVersion := 0)
    {
      if g.nodes[i].exec.phase.Some? {
        ParseNamed(g.nodes[i].exec.phase.value);
      }
    }
    assert DecodeGraph(v).nodes == Forget(g).nodes;
    assert DecodeGraph(v).groups == g.groups;
  }

  lemma {:induction false} ForgetValid(g: Graph)
    requires ValidGraph(g)
    ensures ValidGraph(Forget(g))
  {
    var f := Forget(g);
    assert forall i :: 0 <= i < |f.nodes| ==> ValidNode(g.nodes[i]) && ValidNode(f.nodes[i]);
    assert seq(|f.nodes|, i requires 0 <= i < |f.nodes| => f.nodes[i].workspaceId) ==
           seq(|g.nodes|, i requires 0 <= i < |g.nodes| => g.nodes[i].workspaceId);
  }

  /** After one successful load, every further load reads the same graph and leaves the disk alone. */
  lemma {:induction false} SecondLoadIsNoop(env: Env, d: Disk, env2: Env)
    requires Load(env, d).1.Some? && FromValue(env, d.graph).value.1
    ensures Load(env2, Load(env, d).0) == (Load(env, d).0, Some(Forget(Load(env, d).1.value)))
  {
    var value := Upgrade(env, d.graph).value.0;
    var g := DecodeGraph(value);
    assert Bounded(g) by {
      forall i | 0 <= i < |g.nodes|
        ensures KnownStatus(g.nodes[i].status) && g.nodes[i].exec.revision <= U64_MAX
      {
        assert Decodable(value.nodes.value[i]);
      }
    }
    assert KnownStatuses(g) by {
      forall i | 0 <= i < |g.groups| ensures KnownGroupStatus(g.groups[i].status) {
        assert DecodableGroup(value.groups.value[i]);
      }
    }
    EncodedDecodes(g);
    ForgetValid(g);
  }

  // ---- Stale writers ----

  /** A leaf file after a series of writes by any writers; `None` if one of them was refused. */
  function WriteSeries(file: LeafFile, writes: seq<NodeState>): Option<LeafFile> {
    if writes == [] then Some(file)
    else
      var before := WriteSeries(file, writes[..|writes| - 1]);
      if before.None? then None else Written(before, writes[|writes| - 1])
  }

  function Highest(base: nat, writes: seq<NodeState>): (h: nat)
    ensures base <= h && forall i :: 0 <= i < |writes| ==> writes[i].storageVersion <= h
    ensures h == base || exists i :: 0 <= i < |writes| && writes[i].storageVersion == h
  {
    if writes == [] then base
    else
      var last := writes[|writes| - 1];
      var h := Highest(base, writes[..|writes| - 1]);
      assert forall i :: 0 <= i < |writes| - 1 ==> writes[..|writes| - 1][i] == writes[i];
      if last.storageVersion < h then h else last.storageVersion
  }

  /** The stored version is the highest ever written, and the content is the last writer's, however stale. */
  lemma {:induction false} VersionIsHighestWritten(file: LeafFile, writes: seq<NodeState>)
    requires !Unreadable(file.storage) && SmallVersions(writes) && writes != []
    ensures WriteSeries(file, writes) ==
            Some(LeafFile(EncodeNode(writes[|writes| - 1]), Version(Highest(StoredVersion(file.storage), writes))))
    decreases |writes|
  {
    var pre := writes[..|writes| - 1];
    if pre != [] {
      assert SmallVersions(pre) by {
        assert forall i :: 0 <= i < |pre| ==> pre[i] == writes[i];
      }
      VersionIsHighestWritten(file, pre);
    } else {
      assert WriteSeries(file, pre) == Some(file);
      assert Highest(StoredVersion(file.storage), pre) == StoredVersion(file.storage);
    }
  }
}
