/**
 The counting part of the analytics projection (src/personal_analytics.rs:937-1117): direct replies by
 status, node calls grouped by retry group, and per-node statistics.
 */
module ProjectionCounts {
  import opened Wrappers
  import opened Collections
  import opened Ordered

  const U64_MAX := 0xFFFF_FFFF_FFFF_FFFF

  function SaturatingAdd(a: nat, b: nat): nat {
    if a + b <= U64_MAX then a + b else U64_MAX
  }

  // ---- Sums over maps ----

  function Sum(keys: seq<string>, m: map<string, nat>): nat {
    if keys == [] then 0 else (if keys[0] in m then m[keys[0]] else 0) + Sum(keys[1..], m)
  }

  ghost predicate Distinct(keys: seq<string>) {
    forall i, j :: 0 <= i < j < |keys| ==> keys[i] != keys[j]
  }

  // ---- Direct replies ----

  datatype DirectReply = DirectReply(taskKey: string, status: string, count: nat)

  datatype DirectCounts = DirectCounts(started: nat, completed: nat, failed: nat, cancelled: nat, unknown: nat)

  datatype Class = AsCompleted | AsFailed | AsCancelled | AsUnknown

  function ClassOf(status: string): Class {
    if status == "completed" then AsCompleted
    else if status == "failed" then AsFailed
    else if status == "cancelled" || status == "canceled" then AsCancelled
    else AsUnknown
  }

  /** `modes` gives the mode of every known task. */
  predicate IsDirect(reply: DirectReply, modes: map<string, string>) {
    reply.taskKey in modes && modes[reply.taskKey] == "direct"
  }

  /** Replies of direct tasks in a class. */
  function Replies(replies: seq<DirectReply>, modes: map<string, string>, c: Class): nat {
    if replies == [] then 0
    else
      var last := replies[|replies| - 1];
      Replies(replies[..|replies| - 1], modes, c)
      + if IsDirect(last, modes) && ClassOf(last.status) == c then last.count else 0
  }

  function AllReplies(replies: seq<DirectReply>, modes: map<string, string>): nat {
    if replies == [] then 0
    else
      var last := replies[|replies| - 1];
      AllReplies(replies[..|replies| - 1], modes) + if IsDirect(last, modes) then last.count else 0
  }

  method CountDirect(replies: seq<DirectReply>, modes: map<string, string>) returns (d: DirectCounts)
    ensures d == DirectCounts(
      AllReplies(replies, modes), Replies(replies, modes, AsCompleted), Replies(replies, modes, AsFailed),
      Replies(replies, modes, AsCancelled), Replies(replies, modes, AsUnknown))
  {
    var started, completed, failed, cancelled, unknown := 0, 0, 0, 0, 0;
    for i := 0 to |replies|
      invariant started == AllReplies(replies[..i], modes)
      invariant completed == Replies(replies[..i], modes, AsCompleted) && failed == Replies(replies[..i], modes, AsFailed)
      invariant cancelled == Replies(replies[..i], modes, AsCancelled) && unknown == Replies(replies[..i], modes, AsUnknown)
    {
      var reply := replies[i];
      assert replies[..i + 1][..i] == replies[..i];
      if !IsDirect(reply, modes) {
        continue;
      }
      started := started + reply.count;
      match ClassOf(reply.status)
      case AsCompleted => completed := completed + reply.count;
      case AsFailed => failed := failed + reply.count;
      case AsCancelled => cancelled := cancelled + reply.count;
      case AsUnknown => unknown := unknown + reply.count;
    }
    assert replies[..|replies|] == replies;
    d := DirectCounts(started, completed, failed, cancelled, unknown);
  }

  /** Every started direct reply is counted in exactly one class. */
  lemma {:induction false} DirectConserved(replies: seq<DirectReply>, modes: map<string, string>)
    ensures AllReplies(replies, modes) ==
            Replies(replies, modes, AsCompleted) + Replies(replies, modes, AsFailed)
            + Replies(replies, modes, AsCancelled) + Replies(replies, modes, AsUnknown)
  {
    if replies != [] {
      DirectConserved(replies[..|replies| - 1], modes);
    }
  }

  /** One more reply: it counts if its task is known as a direct one, and then by its status. */
  lemma {:induction false} ReplyCounts(replies: seq<DirectReply>, reply: DirectReply, modes: map<string, string>)
    ensures var more := replies + [reply];
      var n := if reply.taskKey in modes && modes[reply.taskKey] == "direct" then reply.count else 0;
      && AllReplies(more, modes) == AllReplies(replies, modes) + n
      && Replies(more, modes, AsCompleted) ==
         Replies(replies, modes, AsCompleted) + (if reply.status == "completed" then n else 0)
      && Replies(more, modes, AsFailed) == Replies(replies, modes, AsFailed) + (if reply.status == "failed" then n else 0)
      && Replies(more, modes, AsCancelled) ==
         Replies(replies, modes, AsCancelled) + (if reply.status in {"cancelled", "canceled"} then n else 0)
      && Replies(more, modes, AsUnknown) ==
         Replies(replies, modes, AsUnknown)
         + (if reply.status !in {"completed", "failed", "cancelled", "canceled"} then n else 0)
  {
    assert (replies + [reply])[..|replies|] == replies;
  }

  // ---- Nodes ----

  datatype Node = Node(nodeId: string, groupKey: string, attemptKey: string, outcome: Option<string>)

  /** A retry group: the id of its first node, its size, and whether some node succeeded. */
  datatype Group = Group(nodeId: string, count: nat, recovered: bool)

  datatype Stats = Stats(calls: nat, retries: nat, duration: nat, zeroFilled: nat)

  function Calls(nodes: seq<Node>, id: string): nat {
    if nodes == [] then 0 else Calls(nodes[..|nodes| - 1], id) + if nodes[|nodes| - 1].nodeId == id then 1 else 0
  }

  /** Calls of a node id without a measured duration. */
  function ZeroFilled(nodes: seq<Node>, id: string, durations: map<string, nat>): nat {
    if nodes == [] then 0
    else
      var last := nodes[|nodes| - 1];
      ZeroFilled(nodes[..|nodes| - 1], id, durations) + if last.nodeId == id && last.attemptKey !in durations then 1 else 0
  }

  function Measured(nodes: seq<Node>, id: string, durations: map<string, nat>): nat {
    if nodes == [] then 0
    else
      var last := nodes[|nodes| - 1];
      Measured(nodes[..|nodes| - 1], id, durations) + if last.nodeId == id && last.attemptKey in durations then 1 else 0
  }

  function Duration(nodes: seq<Node>, id: string, durations: map<string, nat>): nat {
    if nodes == [] then 0
    else
      var last := nodes[|nodes| - 1];
      var before := Duration(nodes[..|nodes| - 1], id, durations);
      if last.nodeId == id && last.attemptKey in durations then before + durations[last.attemptKey] else before
  }

  function Capped(n: nat): nat {
    if n <= U64_MAX then n else U64_MAX
  }

  function Size(nodes: seq<Node>, group: string): nat {
    if nodes == [] then 0 else Size(nodes[..|nodes| - 1], group) + if nodes[|nodes| - 1].groupKey == group then 1 else 0
  }

  ghost predicate Succeeded(nodes: seq<Node>, group: string) {
    exists i :: 0 <= i < |nodes| && nodes[i].groupKey == group && nodes[i].outcome == Some("success")
  }

  ghost predicate FirstOf(nodes: seq<Node>, group: string, id: string) {
    exists i :: 0 <= i < |nodes| && nodes[i].groupKey == group && nodes[i].nodeId == id
                && forall j :: 0 <= j < i ==> nodes[j].groupKey != group
  }

  function GroupKeys(nodes: seq<Node>): set<string> {
    set i | 0 <= i < |nodes| :: nodes[i].groupKey
  }

  function NodeIds(nodes: seq<Node>): set<string> {
    set i | 0 <= i < |nodes| :: nodes[i].nodeId
  }

  /** What the group map says of each group. */
  ghost predicate GroupsOf(groups: map<string, Group>, nodes: seq<Node>) {
    && groups.Keys == GroupKeys(nodes)
    && forall g :: g in groups ==>
         && groups[g].count == Size(nodes, g) && groups[g].count >= 1
         && (groups[g].recovered <==> Succeeded(nodes, g))
         && FirstOf(nodes, g, groups[g].nodeId)
  }

  function Joined(groups: map<string, Group>, node: Node): map<string, Group> {
    var g := if node.groupKey in groups then groups[node.groupKey] else Group(node.nodeId, 0, false);
    groups[node.groupKey := g.(count := g.count + 1, recovered := g.recovered || node.outcome == Some("success"))]
  }

  lemma {:induction false} GroupSnoc(nodes: seq<Node>, node: Node, g: string)
    ensures var more := nodes + [node];
      && Size(more, g) == Size(nodes, g) + (if node.groupKey == g then 1 else 0)
      && (Succeeded(more, g) <==> Succeeded(nodes, g) || (node.groupKey == g && node.outcome == Some("success")))
  {
    var more := nodes + [node];
    assert more[..|nodes|] == nodes;
    assert more[|nodes|] == node;
    if Succeeded(nodes, g) {
      var i :| 0 <= i < |nodes| && nodes[i].groupKey == g && nodes[i].outcome == Some("success");
      assert more[i] == nodes[i];
    }
  }

  lemma {:induction false} FirstSnoc(nodes: seq<Node>, node: Node, g: string, id: string)
    ensures FirstOf(nodes, g, id) ==> FirstOf(nodes + [node], g, id)
    ensures g !in GroupKeys(nodes) && node.groupKey == g ==> FirstOf(nodes + [node], g, node.nodeId)
    ensures g !in GroupKeys(nodes) ==> Size(nodes, g) == 0 && !Succeeded(nodes, g)
  {
    var more := nodes + [node];
    if FirstOf(nodes, g, id) {
      var i :| 0 <= i < |nodes| && nodes[i].groupKey == g && nodes[i].nodeId == id
               && forall j :: 0 <= j < i ==> nodes[j].groupKey != g;
      assert more[i] == nodes[i];
    }
    if g !in GroupKeys(nodes) {
      NoMembers(nodes, g);
      assert more[|nodes|] == node;
    }
  }

  lemma {:induction false} NoMembers(nodes: seq<Node>, g: string)
    requires g !in GroupKeys(nodes)
    ensures Size(nodes, g) == 0
  {
    if nodes != [] {
      var init := nodes[..|nodes| - 1];
      assert forall i :: 0 <= i < |init| ==> init[i] == nodes[i];
      NoMembers(init, g);
    }
  }

  lemma {:induction false} JoinStep(groups: map<string, Group>, nodes: seq<Node>, node: Node)
    requires GroupsOf(groups, nodes)
    ensures GroupsOf(Joined(groups, node), nodes + [node])
  {
    var more, joined := nodes + [node], Joined(groups, node);
    assert GroupKeys(more) == GroupKeys(nodes) + {node.groupKey} by {
      assert forall i :: 0 <= i < |nodes| ==> more[i] == nodes[i];
      assert more[|nodes|] == node;
    }
    forall g | g in joined
      ensures joined[g].count == Size(more, g) && joined[g].count >= 1
      ensures joined[g].recovered <==> Succeeded(more, g)
      ensures FirstOf(more, g, joined[g].nodeId)
    {
      GroupSnoc(nodes, node, g);
      FirstSnoc(nodes, node, g, if g in groups then groups[g].nodeId else node.nodeId);
    }
  }

  method CountGroups(nodes: seq<Node>) returns (groups: map<string, Group>)
    ensures GroupsOf(groups, nodes)
  {
    groups := map[];
    ghost var past: seq<Node> := [];
    for i := 0 to |nodes|
      invariant past == nodes[..i] && GroupsOf(groups, past)
    {
      JoinStep(groups, past, nodes[i]);
      var node := nodes[i];
      var g := if node.groupKey in groups then groups[node.groupKey] else Group(node.nodeId, 0, false);
      g := g.(count := g.count + 1);
      g := g.(recovered := g.recovered || node.outcome == Some("success"));
      groups := groups[node.groupKey := g];
      past := past + [node];
    }
    assert past == nodes;
  }

  // ---- Retries ----

  /** Groups that were retried, and those that also succeeded in some attempt. */
  function Retried(groups: map<string, Group>): set<string> {
    set g | g in groups && groups[g].count > 1
  }

  function Recovered(groups: map<string, Group>): set<string> {
    set g | g in groups && groups[g].count > 1 && groups[g].recovered
  }

  /** Recovered groups are retried groups, and those are groups. */
  lemma {:induction false} RecoveredAmongRetried(groups: map<string, Group>)
    ensures |Recovered(groups)| <= |Retried(groups)| <= |groups|
  {
    SubsetSize(Recovered(groups), Retried(groups));
    SubsetSize(Retried(groups), groups.Keys);
  }

  lemma {:induction false} SizeTwo(nodes: seq<Node>, g: string)
    ensures Size(nodes, g) >= 1 <==> exists i :: 0 <= i < |nodes| && nodes[i].groupKey == g
    ensures Size(nodes, g) >= 2 <==> exists i, j :: 0 <= i < j < |nodes| && nodes[i].groupKey == g && nodes[j].groupKey == g
  {
    if nodes != [] {
      var init, last := nodes[..|nodes| - 1], |nodes| - 1;
      SizeTwo(init, g);
      if nodes[last].groupKey == g && Size(init, g) >= 1 {
        var i :| 0 <= i < |init| && init[i].groupKey == g;
        assert i < last && nodes[i].groupKey == g && nodes[last].groupKey == g;
      }
      if exists i, j :: 0 <= i < j < |nodes| && nodes[i].groupKey == g && nodes[j].groupKey == g {
        var i, j :| 0 <= i < j < |nodes| && nodes[i].groupKey == g && nodes[j].groupKey == g;
        assert init[i].groupKey == g;
        if j < last {
          assert init[j].groupKey == g;
        }
      }
      if exists i :: 0 <= i < |init| && init[i].groupKey == g {
        var i :| 0 <= i < |init| && init[i].groupKey == g;
        assert nodes[i].groupKey == g;
      }
    }
  }

  /** A group is retried exactly if it has two nodes, and recovered exactly if one of its nodes succeeded, too. */
  lemma {:induction false} RetriedIff(groups: map<string, Group>, nodes: seq<Node>, g: string)
    requires GroupsOf(groups, nodes)
    ensures g in Retried(groups) <==> exists i, j :: 0 <= i < j < |nodes| && nodes[i].groupKey == g && nodes[j].groupKey == g
    ensures g in Recovered(groups) <==>
      g in Retried(groups) && exists i :: 0 <= i < |nodes| && nodes[i].groupKey == g && nodes[i].outcome == Some("success")
  {
    SizeTwo(nodes, g);
  }

  function Sizes(groups: map<string, Group>): map<string, nat> {
    map g | g in groups :: groups[g].count
  }

  function CallsOf(stats: map<string, Stats>): map<string, nat> {
    map id | id in stats :: stats[id].calls
  }

  function RetriesOf(stats: map<string, Stats>): map<string, nat> {
    map id | id in stats :: stats[id].retries
  }

  // ---- Statistics per node id ----

  ghost predicate CallsCounted(stats: map<string, Stats>, nodes: seq<Node>, durations: map<string, nat>) {
    && stats.Keys == NodeIds(nodes)
    && forall id :: id in stats ==>
         stats[id] == Stats(Calls(nodes, id), 0, Capped(Duration(nodes, id, durations)), ZeroFilled(nodes, id, durations))
  }

  function Called(stats: map<string, Stats>, node: Node, durations: map<string, nat>): map<string, Stats> {
    var s := if node.nodeId in stats then stats[node.nodeId] else Stats(0, 0, 0, 0);
    var t := s.(calls := s.calls + 1);
    stats[node.nodeId :=
      if node.attemptKey in durations then t.(duration := SaturatingAdd(t.duration, durations[node.attemptKey]))
      else t.(zeroFilled := t.zeroFilled + 1)]
  }

  lemma {:induction false} StatsSnoc(nodes: seq<Node>, node: Node, id: string, durations: map<string, nat>)
    ensures var more := nodes + [node]; var hit := node.nodeId == id; var measured := node.attemptKey in durations;
      && Calls(more, id) == Calls(nodes, id) + (if hit then 1 else 0)
      && ZeroFilled(more, id, durations) == ZeroFilled(nodes, id, durations) + (if hit && !measured then 1 else 0)
      && Duration(more, id, durations) ==
         Duration(nodes, id, durations) + (if hit && measured then durations[node.attemptKey] else 0)
      && (id !in NodeIds(nodes) ==>
            Calls(nodes, id) == 0 && ZeroFilled(nodes, id, durations) == 0 && Duration(nodes, id, durations) == 0)
  {
    assert (nodes + [node])[..|nodes|] == nodes;
    if id !in NodeIds(nodes) {
      NeverCalled(nodes, id, durations);
    }
  }

  lemma {:induction false} NeverCalled(nodes: seq<Node>, id: string, durations: map<string, nat>)
    requires id !in NodeIds(nodes)
    ensures Calls(nodes, id) == 0 && ZeroFilled(nodes, id, durations) == 0 && Duration(nodes, id, durations) == 0
  {
    if nodes != [] {
      var init := nodes[..|nodes| - 1];
      assert forall i :: 0 <= i < |init| ==> init[i] == nodes[i];
      NeverCalled(init, id, durations);
    }
  }

  lemma {:induction false} CallStep(stats: map<string, Stats>, nodes: seq<Node>, node: Node, durations: map<string, nat>)
    requires CallsCounted(stats, nodes, durations)
    ensures CallsCounted(Called(stats, node, durations), nodes + [node], durations)
  {
    var more := nodes + [node];
    assert NodeIds(more) == NodeIds(nodes) + {node.nodeId} by {
      assert forall i :: 0 <= i < |nodes| ==> more[i] == nodes[i];
      assert more[|nodes|] == node;
    }
    forall id { StatsSnoc(nodes, node, id, durations); }
  }

  method CountCalls(nodes: seq<Node>, durations: map<string, nat>) returns (stats: map<string, Stats>)
    ensures CallsCounted(stats, nodes, durations)
  {
    stats := map[];
    ghost var past: seq<Node> := [];
    for i := 0 to |nodes|
      invariant past == nodes[..i] && CallsCounted(stats, past, durations)
    {
      CallStep(stats, past, nodes[i], durations);
      var node := nodes[i];
      var s := if node.nodeId in stats then stats[node.nodeId] else Stats(0, 0, 0, 0);
      s := s.(calls := s.calls + 1);
      if node.attemptKey in durations {
        s := s.(duration := SaturatingAdd(s.duration, durations[node.attemptKey]));
      } else {
        s := s.(zeroFilled := s.zeroFilled + 1);
      }
      stats := stats[node.nodeId := s];
      past := past + [node];
    }
    assert past == nodes;
  }

  // ---- Retries per node id ----

  function Retries(g: Group): nat {
    if g.count > 1 then g.count - 1 else 0
  }

  /** What the groups of a list contribute to a node id. */
  function RetriesFor(keys: seq<string>, groups: map<string, Group>, id: string): nat
    requires forall g :: g in keys ==> g in groups
  {
    if keys == [] then 0
    else
      var last := keys[|keys| - 1];
      assert last in keys;
      RetriesFor(keys[..|keys| - 1], groups, id) + if groups[last].nodeId == id then Retries(groups[last]) else 0
  }

  ghost predicate Charged(
    stats: map<string, Stats>, calls: map<string, Stats>, keys: seq<string>, groups: map<string, Group>)
    requires forall g :: g in keys ==> g in groups
  {
    && stats.Keys == calls.Keys
    && forall id :: id in stats ==> stats[id] == calls[id].(retries := RetriesFor(keys, groups, id))
  }

  lemma {:induction false} RetriesSnoc(keys: seq<string>, g: string, groups: map<string, Group>, id: string)
    requires g in groups && forall k :: k in keys ==> k in groups
    ensures forall k :: k in keys + [g] ==> k in groups
    ensures RetriesFor(keys + [g], groups, id) ==
            RetriesFor(keys, groups, id) + if groups[g].nodeId == id then Retries(groups[g]) else 0
  {
    assert (keys + [g])[..|keys|] == keys;
  }

  /** One group: a retried one charges its node id. */
  function ChargedBy(stats: map<string, Stats>, g: Group): map<string, Stats>
    requires g.nodeId in stats
  {
    if g.count > 1 then
      stats[g.nodeId := stats[g.nodeId].(retries := stats[g.nodeId].retries + (g.count - 1))]
    else stats
  }

  lemma {:induction false} ChargeStep(
    stats: map<string, Stats>, calls: map<string, Stats>, keys: seq<string>, g: string, groups: map<string, Group>)
    requires g in groups && groups[g].nodeId in calls && forall k :: k in keys ==> k in groups
    requires Charged(stats, calls, keys, groups)
    ensures forall k :: k in keys + [g] ==> k in groups
    ensures Charged(ChargedBy(stats, groups[g]), calls, keys + [g], groups)
  {
    forall id ensures RetriesFor(keys + [g], groups, id) ==
                      RetriesFor(keys, groups, id) + if groups[g].nodeId == id then Retries(groups[g]) else 0
    {
      RetriesSnoc(keys, g, groups, id);
    }
  }

  /** The loop over the groups in the order of their keys. */
  method ChargeRetries(calls: map<string, Stats>, groups: map<string, Group>) returns (stats: map<string, Stats>)
    requires forall g :: g in groups ==> groups[g].nodeId in calls
    requires forall id :: id in calls ==> calls[id].retries == 0
    ensures Charged(stats, calls, SortedKeys(groups.Keys), groups)
  {
    stats := calls;
    var keys := SortedKeys(groups.Keys);
    ghost var past: seq<string> := [];
    for i := 0 to |keys|
      invariant past == keys[..i] && (forall g :: g in past ==> g in groups) && Charged(stats, calls, past, groups)
    {
      var g := groups[keys[i]];
      ChargeStep(stats, calls, past, keys[i], groups);
      if g.count > 1 {
        stats := stats[g.nodeId := stats[g.nodeId].(retries := stats[g.nodeId].retries + (g.count - 1))];
      }
      past := past + [keys[i]];
    }
    assert past == keys;
  }

  /** The node statistics of the projection. */
  ghost predicate Projected(
    stats: map<string, Stats>, groups: map<string, Group>, nodes: seq<Node>, durations: map<string, nat>)
  {
    && GroupsOf(groups, nodes) && stats.Keys == NodeIds(nodes)
    && forall id :: id in stats ==>
         stats[id] == Stats(Calls(nodes, id), RetriesFor(SortedKeys(groups.Keys), groups, id),
                            Capped(Duration(nodes, id, durations)), ZeroFilled(nodes, id, durations))
  }

  /** The counting part of `finalize_projection` for nodes. */
  method Project(nodes: seq<Node>, durations: map<string, nat>)
    returns (stats: map<string, Stats>, groups: map<string, Group>, retried: nat, recovered: nat)
    ensures Projected(stats, groups, nodes, durations)
    ensures retried == |Retried(groups)| && recovered == |Recovered(groups)|
  {
    groups := CountGroups(nodes);
    retried := |Retried(groups)|;
    recovered := |Recovered(groups)|;
    var calls := CountCalls(nodes, durations);
    forall g | g in groups ensures groups[g].nodeId in calls {
      FirstIsNode(nodes, g, groups[g].nodeId);
    }
    stats := ChargeRetries(calls, groups);
  }

  lemma {:induction false} FirstIsNode(nodes: seq<Node>, g: string, id: string)
    requires FirstOf(nodes, g, id)
    ensures id in NodeIds(nodes)
  {
  }

  // ---- Conservation ----

  /** The calls of a node id are measured or zero-filled. */
  lemma {:induction false} CallsSplit(nodes: seq<Node>, id: string, durations: map<string, nat>)
    ensures Measured(nodes, id, durations) + ZeroFilled(nodes, id, durations) == Calls(nodes, id)
  {
    if nodes != [] {
      CallsSplit(nodes[..|nodes| - 1], id, durations);
    }
  }

  lemma {:induction false} DistinctHead(keys: seq<string>)
    requires Distinct(keys) && keys != []
    ensures keys[0] !in keys[1..] && Distinct(keys[1..])
    ensures forall k :: k in keys <==> k == keys[0] || k in keys[1..]
  {
    forall k | 0 <= k < |keys[1..]| ensures keys[1..][k] != keys[0] {
      assert keys[1..][k] == keys[k + 1];
    }
  }

  function Occurrences(labels: seq<string>, x: string): nat {
    if labels == [] then 0
    else Occurrences(labels[..|labels| - 1], x) + if labels[|labels| - 1] == x then 1 else 0
  }

  function OccurrenceSum(keys: seq<string>, labels: seq<string>): nat {
    if keys == [] then 0 else Occurrences(labels, keys[0]) + OccurrenceSum(keys[1..], labels)
  }

  lemma {:induction false} OccurrenceStep(keys: seq<string>, labels: seq<string>)
    requires Distinct(keys) && labels != []
    ensures OccurrenceSum(keys, labels) ==
            OccurrenceSum(keys, labels[..|labels| - 1]) + if labels[|labels| - 1] in keys then 1 else 0
  {
    if keys != [] {
      DistinctHead(keys);
      OccurrenceStep(keys[1..], labels);
    }
  }

  /** Over keys that cover all labels, the occurrences add up to the number of labels. */
  lemma {:induction false} OccurrencesAddUp(keys: seq<string>, labels: seq<string>)
    requires Distinct(keys) && forall x :: x in labels ==> x in keys
    ensures OccurrenceSum(keys, labels) == |labels|
  {
    if labels == [] {
      NoOccurrences(keys);
    } else {
      var init := labels[..|labels| - 1];
      OccurrencesAddUp(keys, init);
      OccurrenceStep(keys, labels);
      assert labels[|labels| - 1] in labels;
    }
  }

  lemma {:induction false} NoOccurrences(keys: seq<string>)
    ensures OccurrenceSum(keys, []) == 0
  {
    if keys != [] {
      NoOccurrences(keys[1..]);
    }
  }

  function NodeLabels(nodes: seq<Node>): (r: seq<string>)
    ensures |r| == |nodes|
  {
    seq(|nodes|, i requires 0 <= i < |nodes| => nodes[i].nodeId)
  }

  function GroupLabels(nodes: seq<Node>): (r: seq<string>)
    ensures |r| == |nodes|
  {
    seq(|nodes|, i requires 0 <= i < |nodes| => nodes[i].groupKey)
  }

  lemma {:induction false} CallsAreOccurrences(nodes: seq<Node>, x: string)
    ensures Calls(nodes, x) == Occurrences(NodeLabels(nodes), x)
    ensures Size(nodes, x) == Occurrences(GroupLabels(nodes), x)
  {
    if nodes != [] {
      var init := nodes[..|nodes| - 1];
      CallsAreOccurrences(init, x);
      assert NodeLabels(nodes)[..|init|] == NodeLabels(init);
      assert GroupLabels(nodes)[..|init|] == GroupLabels(init);
    }
  }

  lemma {:induction false} SumOfOccurrences(keys: seq<string>, m: map<string, nat>, labels: seq<string>)
    requires forall k :: k in keys ==> k in m && m[k] == Occurrences(labels, k)
    ensures Sum(keys, m) == OccurrenceSum(keys, labels)
  {
    if keys != [] {
      assert keys[0] in keys;
      SumOfOccurrences(keys[1..], m, labels);
    }
  }

  // Retries.

  function TotalRetries(keys: seq<string>, groups: map<string, Group>): nat
    requires forall g :: g in keys ==> g in groups
  {
    if keys == [] then 0
    else
      assert keys[|keys| - 1] in keys;
      TotalRetries(keys[..|keys| - 1], groups) + Retries(groups[keys[|keys| - 1]])
  }

  function RetrySum(ids: seq<string>, keys: seq<string>, groups: map<string, Group>): nat
    requires forall g :: g in keys ==> g in groups
  {
    if ids == [] then 0 else RetriesFor(keys, groups, ids[0]) + RetrySum(ids[1..], keys, groups)
  }

  lemma {:induction false} RetrySumStep(ids: seq<string>, keys: seq<string>, groups: map<string, Group>)
    requires Distinct(ids) && keys != [] && forall g :: g in keys ==> g in groups
    ensures keys[|keys| - 1] in groups
    ensures var last := groups[keys[|keys| - 1]];
      RetrySum(ids, keys, groups) ==
      RetrySum(ids, keys[..|keys| - 1], groups) + if last.nodeId in ids then Retries(last) else 0
  {
    assert keys[|keys| - 1] in keys;
    if ids != [] {
      DistinctHead(ids);
      RetrySumStep(ids[1..], keys, groups);
    }
  }

  lemma {:induction false} RetriesAddUp(ids: seq<string>, keys: seq<string>, groups: map<string, Group>)
    requires Distinct(ids) && forall g :: g in keys ==> g in groups && groups[g].nodeId in ids
    ensures RetrySum(ids, keys, groups) == TotalRetries(keys, groups)
  {
    if keys == [] {
      NoRetries(ids, groups);
    } else {
      assert keys[|keys| - 1] in keys;
      RetriesAddUp(ids, keys[..|keys| - 1], groups);
      RetrySumStep(ids, keys, groups);
    }
  }

  lemma {:induction false} NoRetries(ids: seq<string>, groups: map<string, Group>)
    ensures RetrySum(ids, [], groups) == 0
  {
    if ids != [] {
      NoRetries(ids[1..], groups);
    }
  }

  lemma {:induction false} SumSnoc(keys: seq<string>, m: map<string, nat>)
    requires keys != []
    ensures Sum(keys, m) ==
            Sum(keys[..|keys| - 1], m) + if keys[|keys| - 1] in m then m[keys[|keys| - 1]] else 0
  {
    if |keys| > 1 {
      SumSnoc(keys[1..], m);
      assert keys[1..][..|keys| - 2] == keys[..|keys| - 1][1..];
    }
  }

  /** Every group is retried once for each node after its first. */
  lemma {:induction false} RetriesAreSurplus(keys: seq<string>, groups: map<string, Group>)
    requires forall g :: g in keys ==> g in groups && groups[g].count >= 1
    ensures TotalRetries(keys, groups) + |keys| == Sum(keys, Sizes(groups))
  {
    if keys != [] {
      assert keys[|keys| - 1] in keys;
      RetriesAreSurplus(keys[..|keys| - 1], groups);
      SumSnoc(keys, Sizes(groups));
    }
  }

  lemma {:induction false} SumOfRetries(ids: seq<string>, m: map<string, nat>, keys: seq<string>, groups: map<string, Group>)
    requires forall g :: g in keys ==> g in groups
    requires forall id :: id in ids ==> id in m && m[id] == RetriesFor(keys, groups, id)
    ensures Sum(ids, m) == RetrySum(ids, keys, groups)
  {
    if ids != [] {
      assert ids[0] in ids;
      SumOfRetries(ids[1..], m, keys, groups);
    }
  }

  lemma {:induction false} KeysDistinct(keys: set<string>)
    ensures Distinct(SortedKeys(keys))
  {
    SortedDistinct(SortedKeys(keys));
  }

  lemma {:induction false} CallsConserved(
    stats: map<string, Stats>, groups: map<string, Group>, nodes: seq<Node>, durations: map<string, nat>)
    requires Projected(stats, groups, nodes, durations)
    ensures Sum(SortedKeys(stats.Keys), CallsOf(stats)) == |nodes|
    ensures Sum(SortedKeys(groups.Keys), Sizes(groups)) == |nodes|
  {
    var ids, keys := SortedKeys(stats.Keys), SortedKeys(groups.Keys);
    KeysDistinct(stats.Keys);
    KeysDistinct(groups.Keys);
    forall x ensures Calls(nodes, x) == Occurrences(NodeLabels(nodes), x)
                     && Size(nodes, x) == Occurrences(GroupLabels(nodes), x)
    {
      CallsAreOccurrences(nodes, x);
    }
    forall x | x in NodeLabels(nodes) ensures x in ids {
      assert x in NodeIds(nodes);
    }
    forall x | x in GroupLabels(nodes) ensures x in keys {
      assert x in GroupKeys(nodes);
    }
    SumOfOccurrences(ids, CallsOf(stats), NodeLabels(nodes));
    OccurrencesAddUp(ids, NodeLabels(nodes));
    SumOfOccurrences(keys, Sizes(groups), GroupLabels(nodes));
    OccurrencesAddUp(keys, GroupLabels(nodes));
  }

  lemma {:induction false} RetriesConserved(
    stats: map<string, Stats>, groups: map<string, Group>, nodes: seq<Node>, durations: map<string, nat>)
    requires Projected(stats, groups, nodes, durations)
    ensures Sum(SortedKeys(stats.Keys), RetriesOf(stats)) + |groups| == |nodes|
  {
    var ids, keys := SortedKeys(stats.Keys), SortedKeys(groups.Keys);
    KeysDistinct(stats.Keys);
    CallsConserved(stats, groups, nodes, durations);
    forall g | g in keys ensures groups[g].nodeId in ids {
      FirstIsNode(nodes, g, groups[g].nodeId);
    }
    SumOfRetries(ids, RetriesOf(stats), keys, groups);
    RetriesAddUp(ids, keys, groups);
    RetriesAreSurplus(keys, groups);
    assert |keys| == |groups.Keys| == |groups|;
  }

  /**
   Whatever the node facts: calls over all node ids add up to the nodes, retries to the nodes that are not
   the first of their group, the calls of an id are measured or zero-filled, and recovered groups are
   retried groups.
   */
  lemma {:induction false} CountsConserved(
    stats: map<string, Stats>, groups: map<string, Group>, nodes: seq<Node>, durations: map<string, nat>)
    requires Projected(stats, groups, nodes, durations)
    ensures Sum(SortedKeys(stats.Keys), CallsOf(stats)) == |nodes|
    ensures Sum(SortedKeys(stats.Keys), RetriesOf(stats)) == |nodes| - |groups|
    ensures forall id :: id in stats ==> Measured(nodes, id, durations) + stats[id].zeroFilled == stats[id].calls
    ensures |Recovered(groups)| <= |Retried(groups)| <= |groups| <= |nodes|
  {
    CallsConserved(stats, groups, nodes, durations);
    RetriesConserved(stats, groups, nodes, durations);
    RecoveredAmongRetried(groups);
    forall id | id in stats ensures Measured(nodes, id, durations) + stats[id].zeroFilled == stats[id].calls {
      CallsSplit(nodes, id, durations);
    }
  }
}
