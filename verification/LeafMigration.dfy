/**
 Graph v0.2 to v0.4, leaf by leaf (src/dynamic_store.rs): v0.3 gives every leaf a Runtime execution
 projection, v0.4 renames its revision into the lifecycle watermark.
 */
module LeafMigration {
  import opened Wrappers
  import opened Text
  import opened LeafLifecycle
  import opened GraphModel

  /** What the v0.2 step reads of the run. */
  datatype RunInfo = RunInfo(running: bool, updatedAt: string, current: seq<string>)

  predicate ActiveName(phase: Option<string>) {
    phase.Some? && phase.value in {"starting-node", "running-node", "finalizing-artifact", "repairing-artifact"}
  }

  /** The time a leaf without a timestamp is given. */
  function Stamp(info: RunInfo, n: NodeValue): string {
    n.exec.executionUpdatedAt.GetOr(n.finishedAt.GetOr(n.startedAt.GetOr(info.updatedAt)))
  }

  function Settle(info: RunInfo, n: NodeValue, id: Option<string>, phase: string): ExecFields {
    var revision := n.exec.executionRevision.GetOr(0);
    n.exec.(executionId := id, phase := Some(phase),
            executionRevision := Some(if revision < 1 then 1 else revision),
            executionUpdatedAt := Some(Stamp(info, n)))
  }

  /** A running graph still owns a completed leaf that is current and has an execution. */
  predicate GraphOwns(info: RunInfo, n: NodeValue)
    requires n.id.Some? && n.status.Some?
  {
    n.status.value == "completed" && info.running && n.id.value in info.current && n.exec.executionId.Some?
  }

  predicate LeafReadable(n: NodeValue) {
    Present(n.id) && Present(n.status)
  }

  function LeafV02(info: RunInfo, n: NodeValue): NodeValue
    requires LeafReadable(n)
  {
    var e := n.exec;
    var keep := (fallback: string) => if ActiveName(e.phase) then e.phase.value else fallback;
    var exec :=
      match n.status.value
      case "paused" => Settle(info, n, None, "paused")
      case "completed" =>
        if GraphOwns(info, n) then Settle(info, n, e.executionId, keep("finalizing-artifact"))
        else Settle(info, n, None, "terminal")
      case "pending" =>
        e.(executionId := None, phase := None, executionRevision := Some(0), executionUpdatedAt := None)
      case status =>
        if status == "running" && e.executionId.Some? then Settle(info, n, e.executionId, keep("running-node"))
        else if status == "ready" && e.executionId.Some? then Settle(info, n, e.executionId, keep("starting-node"))
        else if e.phase.Some? then Settle(info, n, e.executionId, e.phase.value)
        else e;
    n.(exec := exec)
  }

  function LeafV03(n: NodeValue): NodeValue {
    var e := n.exec;
    n.(exec := e.(
      executionRevision := None,
      executionUpdatedAt := None,
      lifecycleRevision := Some(e.executionRevision.GetOr(0)),
      lifecycleUpdatedAt := if e.executionUpdatedAt.Some? then e.executionUpdatedAt else e.lifecycleUpdatedAt))
  }

  predicate RunInfoReadable(v: GraphValue) {
    v.run.Some? && Present(v.run.value.updatedAt)
  }

  function RunInfoOf(v: GraphValue): RunInfo
    requires RunInfoReadable(v)
  {
    var run := v.run.value;
    RunInfo(run.status == Some("running"), run.updatedAt.value, run.currentNodeIds.GetOr([]))
  }

  predicate MigratableV02(v: GraphValue) {
    RunInfoReadable(v) && v.nodes.Some? && forall i :: 0 <= i < |v.nodes.value| ==> LeafReadable(v.nodes.value[i])
  }

  function MigratedV02(v: GraphValue): GraphValue
    requires MigratableV02(v)
  {
    var nodes := v.nodes.value;
    v.(version := Some(LEAF_EXECUTION),
       nodes := Some(seq(|nodes|, i requires 0 <= i < |nodes| => LeafV02(RunInfoOf(v), nodes[i]))))
  }

  function MigratedV03(v: GraphValue): GraphValue
    requires v.nodes.Some?
  {
    var nodes := v.nodes.value;
    v.(version := Some(CURRENT), nodes := Some(seq(|nodes|, i requires 0 <= i < |nodes| => LeafV03(nodes[i]))))
  }

  // ---- What the two steps achieve ----

  /** A leaf as v0.2 wrote it: a known status and phase, and none of the v0.4 fields. */
  predicate IsV02Leaf(n: NodeValue) {
    && LeafReadable(n) && KnownStatus(n.status.value)
    && (n.exec.phase.Some? ==> ParsePhase(n.exec.phase.value).Some?)
    && n.exec.lifecycleRevision.None? && n.exec.lifecycleUpdatedAt.None?
    && n.exec.executionRevision.GetOr(0) <= U64_MAX
  }

  /** A startable leaf that records no execution at all: the only kind whose fields are left alone. */
  predicate Untouched(n: NodeValue)
    requires n.status.Some?
  {
    n.status.value in {"ready", "running"} && n.exec.executionId.None? && n.exec.phase.None?
  }

  /** The condition on the timestamps under which the migrated leaf is valid. */
  predicate WellDated(info: RunInfo, n: NodeValue)
    requires n.status.Some?
  {
    if Untouched(n) then
      && (n.exec.executionRevision.GetOr(0) == 0 <==> n.exec.executionUpdatedAt.None?)
      && (n.exec.executionUpdatedAt.Some? ==> !Blank(n.exec.executionUpdatedAt.value))
    else n.status.value == "pending" || !Blank(Stamp(info, n))
  }

  function MigratedLeaf(info: RunInfo, n: NodeValue): LeafExec
    requires LeafReadable(n)
  {
    DecodeExec(LeafV03(LeafV02(info, n)).exec)
  }

  /** The two steps establish every execution clause of the validator exactly on well-dated leaves. */
  lemma {:induction false} LeafValidIff(info: RunInfo, n: NodeValue)
    requires IsV02Leaf(n)
    ensures ExecClauses(MigratedLeaf(info, n)) <==> WellDated(info, n)
  {
    var e := LeafV02(info, n).exec;
    assert e.phase.Some? ==> ParsePhase(e.phase.value).Some?;
    assert ActiveName(e.phase) ==> Active(ParsePhase(e.phase.value).value);
  }

  /** Non-blank timestamps, and revision and timestamp initialised together, are enough. */
  lemma {:induction false} DatedLeafValid(info: RunInfo, n: NodeValue)
    requires IsV02Leaf(n) && !Blank(info.updatedAt)
    requires forall t :: t in [n.exec.executionUpdatedAt, n.startedAt, n.finishedAt] && t.Some? ==> !Blank(t.value)
    requires n.exec.executionRevision.GetOr(0) == 0 <==> n.exec.executionUpdatedAt.None?
    ensures ExecClauses(MigratedLeaf(info, n))
  {
    var times := [n.exec.executionUpdatedAt, n.startedAt, n.finishedAt];
    assert times[0] in times && times[1] in times && times[2] in times;
    LeafValidIff(info, n);
  }

  /** The fence survives exactly on startable leaves and on completed leaves the running graph owns. */
  lemma {:induction false} FenceSurvivesIff(info: RunInfo, n: NodeValue)
    requires IsV02Leaf(n)
    ensures var kept := n.status.value in {"ready", "running"} || GraphOwns(info, n);
            MigratedLeaf(info, n).executionId == if kept then n.exec.executionId else None
  {
  }

  /** The watermark never falls below the revision it replaces, except that pending leaves restart at 0. */
  lemma {:induction false} RevisionNeverDecreases(info: RunInfo, n: NodeValue)
    requires IsV02Leaf(n)
    ensures if n.status.value == "pending" then MigratedLeaf(info, n).revision == 0
            else MigratedLeaf(info, n).revision >= n.exec.executionRevision.GetOr(0)
  {
  }

  /** Running the v0.2 step again changes nothing, whatever the status. */
  lemma {:induction false} V02Idempotent(info: RunInfo, n: NodeValue)
    requires LeafReadable(n)
    ensures LeafReadable(LeafV02(info, n))
    ensures LeafV02(info, LeafV02(info, n)) == LeafV02(info, n)
  {
  }

  // ---- Where every leaf ends up ----

  /** A node of the graph that v0.2 wrote, after both steps. */
  function MigratedNode(v: GraphValue, i: nat): NodeValue
    requires MigratableV02(v) && i < |v.nodes.value|
  {
    MigratedV03(MigratedV02(v)).nodes.value[i]
  }

  /** The phase a leaf is in, or the fallback if that is not an active one. */
  function ActiveOr(n: NodeValue, fallback: Phase): Option<Phase> {
    match n.exec.phase
    case Some("starting-node") => Some(StartingNode)
    case Some("running-node") => Some(RunningNode)
    case Some("finalizing-artifact") => Some(FinalizingArtifact)
    case Some("repairing-artifact") => Some(RepairingArtifact)
    case _ => Some(fallback)
  }

  /** The leaf is completed, but a running graph still has it among its current nodes, with an execution. */
  predicate StillOwned(v: GraphValue, n: NodeValue)
    requires v.run.Some?
  {
    && n.status == Some("completed") && n.exec.executionId.Some? && n.id.Some?
    && v.run.value.status == Some("running") && v.run.value.currentNodeIds.Some?
    && n.id.value in v.run.value.currentNodeIds.value
  }

  /** The phase of every migrated leaf. */
  lemma {:induction false} LeafPhase(v: GraphValue, i: nat)
    requires MigratableV02(v) && i < |v.nodes.value| && IsV02Leaf(v.nodes.value[i])
    ensures var n := v.nodes.value[i]; var phase := DecodeExec(MigratedNode(v, i).exec).phase;
      && (n.status == Some("paused") ==> phase == Some(Paused))
      && (n.status == Some("pending") ==> phase == None)
      && (n.status == Some("completed") ==>
            phase == if StillOwned(v, n) then ActiveOr(n, FinalizingArtifact) else Some(Terminal))
      && (n.status == Some("running") && n.exec.executionId.Some? ==> phase == ActiveOr(n, RunningNode))
      && (n.status == Some("ready") && n.exec.executionId.Some? ==> phase == ActiveOr(n, StartingNode))
      && (n.status in {Some("running"), Some("ready")} && n.exec.executionId.None? ==> phase == DecodeExec(n.exec).phase)
  {
  }

  /** The first of four times that is recorded, the run's own being always there. */
  function FirstTime(v: GraphValue, n: NodeValue): Option<string>
    requires v.run.Some?
  {
    if n.exec.executionUpdatedAt.Some? then n.exec.executionUpdatedAt
    else if n.finishedAt.Some? then n.finishedAt
    else if n.startedAt.Some? then n.startedAt
    else v.run.value.updatedAt
  }

  /** The watermark of every migrated leaf: its revision, at least 1 unless nothing was executed, and its time. */
  lemma {:induction false} LeafWatermark(v: GraphValue, i: nat)
    requires MigratableV02(v) && i < |v.nodes.value| && IsV02Leaf(v.nodes.value[i])
    ensures var n := v.nodes.value[i]; var leaf, was := DecodeExec(MigratedNode(v, i).exec), n.exec.executionRevision.GetOr(0);
      if n.status == Some("pending") then leaf.revision == 0 && leaf.updatedAt == None
      else if n.status in {Some("running"), Some("ready")} && n.exec.executionId.None? && n.exec.phase.None? then
        leaf.revision == was && leaf.updatedAt == n.exec.executionUpdatedAt
      else leaf.revision == (if was == 0 then 1 else was) && leaf.updatedAt == FirstTime(v, n)
  {
  }

  /** Both steps rewrite execution fields and versions only; the execution id goes exactly where nothing executes. */
  lemma {:induction false} LeafKeepsRest(v: GraphValue, i: nat)
    requires MigratableV02(v) && i < |v.nodes.value| && IsV02Leaf(v.nodes.value[i])
    ensures var n := v.nodes.value[i]; var m := MigratedNode(v, i);
      && m == n.(exec := m.exec)
      && m.exec.executionRevision.None? && m.exec.executionUpdatedAt.None?
      && (m.exec.executionId == if n.status in {Some("running"), Some("ready")} || StillOwned(v, n) then n.exec.executionId else None)
    ensures var m := MigratedV03(MigratedV02(v));
      && m == v.(version := Some("0.4"), nodes := m.nodes) && m.nodes.Some? && |m.nodes.value| == |v.nodes.value|
  {
  }

  /** The v0.3 step alone moves the revision and its time; nothing else of a node changes. */
  lemma {:induction false} V03Renames(v: GraphValue, i: nat)
    requires v.nodes.Some? && i < |v.nodes.value|
    ensures var n := v.nodes.value[i]; var m := MigratedV03(v).nodes.value[i];
      && m == n.(exec := m.exec) && m.exec.executionId == n.exec.executionId && m.exec.phase == n.exec.phase
      && m.exec.executionRevision.None? && m.exec.executionUpdatedAt.None?
      && m.exec.lifecycleRevision == Some(n.exec.executionRevision.GetOr(0))
      && (if n.exec.executionUpdatedAt.Some? then m.exec.lifecycleUpdatedAt == n.exec.executionUpdatedAt
          else m.exec.lifecycleUpdatedAt == n.exec.lifecycleUpdatedAt)
  {
  }
}
