/**
 What the migration of an authoring workflow leaves in its workers, its bindings and its revisions.
 */
module BindingContents {
  import opened Wrappers
  import opened Text
  import opened Ordered
  import opened WorkflowBindings
  import opened BindingTheorems

  // ---- Workers ----

  /** Every worker keeps id and definition, loses its execution fields, and has the slot of its template, its own, or a new one. */
  lemma {:induction false} WorkersAfterMigration(world: World, a: Authoring, i: nat)
    ensures var w := Migrated(world, a).workflow;
      && w.rest == a.workflow.rest && |w.nodes| == |a.workflow.nodes|
      && (i < |w.nodes| ==>
            match a.workflow.nodes[i]
            case AiDynamic(_) => w.nodes[i] == a.workflow.nodes[i]
            case WorkerNode(n) =>
              var slot :=
                match world.template
                case Some(template) => "builtin:" + template + ":" + n.id
                case None => if n.slot.Some? && !Blank(n.slot.value) then n.slot.value else world.uuid(i);
              w.nodes[i] == WorkerNode(Worker(n.id, Some(slot), None, None, None, map[], n.rest)))
  {
  }

  /** Workers of one template have different slots if they have different ids. */
  lemma {:induction false} TemplateSlotsDiffer(world: World, a: Authoring, i: nat, j: nat)
    requires world.template.Some? && i < |a.workflow.nodes| && j < |a.workflow.nodes|
    requires a.workflow.nodes[i].WorkerNode? && a.workflow.nodes[j].WorkerNode?
    requires a.workflow.nodes[i].worker.id != a.workflow.nodes[j].worker.id
    ensures var nodes := Migrated(world, a).workflow.nodes; nodes[i].worker.slot != nodes[j].worker.slot
  {
    var prefix := "builtin:" + world.template.value + ":";
    var x, y := a.workflow.nodes[i].worker.id, a.workflow.nodes[j].worker.id;
    assert (prefix + x)[|prefix|..] == x && (prefix + y)[|prefix|..] == y;
  }

  /** Two nodes with the same definition, whatever they are bound to. */
  predicate SameDefinition(m: Node, n: Node) {
    match m
    case AiDynamic(_) => m == n
    case WorkerNode(w) => n.WorkerNode? && n.worker.id == w.id && n.worker.rest == w.rest
  }

  /** The definition covers everything but slots and execution fields. */
  lemma {:induction false} DefinitionCovers(v: Workflow, w: Workflow)
    ensures Strip(v) == Strip(w) <==>
      v.rest == w.rest && |v.nodes| == |w.nodes| && forall i :: 0 <= i < |v.nodes| ==> SameDefinition(v.nodes[i], w.nodes[i])
  {
    if Strip(v) == Strip(w) {
      assert |Strip(v).nodes| == |v.nodes| && |Strip(w).nodes| == |w.nodes|;
      forall i | 0 <= i < |v.nodes| ensures SameDefinition(v.nodes[i], w.nodes[i]) {
        assert Strip(v).nodes[i] == Strip(w).nodes[i];
      }
    } else if |v.nodes| == |w.nodes| && forall i :: 0 <= i < |v.nodes| ==> SameDefinition(v.nodes[i], w.nodes[i]) {
      forall i | 0 <= i < |v.nodes| ensures Strip(v).nodes[i] == Strip(w).nodes[i] {
        assert SameDefinition(v.nodes[i], w.nodes[i]);
      }
      assert Strip(v).nodes == Strip(w).nodes;
    }
  }

  // ---- Bindings ----

  /** The slot under which worker `i` is bound. */
  function SlotKey(world: World, i: nat, w: Worker): string {
    match world.template
    case Some(template) => "builtin:" + template + ":" + w.id
    case None => if w.slot.Some? && !Blank(w.slot.value) then Trim(w.slot.value) else world.uuid(i)
  }

  /** The worker names an agent, and the binding says what the worker's execution fields say. */
  predicate Describes(b: Binding, w: Worker) {
    && w.provider.Some? && !Blank(w.provider.value) && b.agent == Trim(w.provider.value) && b.options == w.options
    && b.model == (if w.model.Some? && !Blank(w.model.value) then w.model else None)
    && b.permission == (if w.permission.Some? && !Blank(w.permission.value) then w.permission else None)
  }

  predicate Speaks(world: World, nodes: seq<Node>, i: int, slot: string) {
    && 0 <= i < |nodes| && nodes[i].WorkerNode? && SlotKey(world, i, nodes[i].worker) == slot
    && nodes[i].worker.provider.Some? && !Blank(nodes[i].worker.provider.value)
  }

  /** Worker `i` is the first for its slot that names an agent. */
  predicate FirstSpeaks(world: World, nodes: seq<Node>, i: int, slot: string) {
    Speaks(world, nodes, i, slot) && forall j :: 0 <= j < i ==> !Speaks(world, nodes, j, slot)
  }

  /** Some migrated worker carries the slot. */
  ghost predicate Carried(world: World, a: Authoring, slot: string) {
    exists i :: 0 <= i < |Migrated(world, a).workflow.nodes| && Migrated(world, a).workflow.nodes[i].WorkerNode?
      && Migrated(world, a).workflow.nodes[i].worker.slot == Some(slot)
  }

  /** What the table says about a slot when `k` nodes are filed: the known binding, or the first worker's own. */
  ghost predicate FiledSays(world: World, nodes: seq<Node>, known: map<string, Binding>, t: map<string, Binding>, k: nat, slot: string)
  {
    if slot in known then slot in t && t[slot] == known[slot]
    else
      && (slot in t <==> exists i :: i < k && Speaks(world, nodes, i, slot))
      && forall i :: i < k && FirstSpeaks(world, nodes, i, slot) ==> slot in t && t[slot].slot == slot && Describes(t[slot], nodes[i].worker)
  }

  lemma {:induction false} FiledIs(world: World, nodes: seq<Node>, known: map<string, Binding>, k: nat, slot: string)
    requires k <= |nodes|
    ensures FiledSays(world, nodes, known, Filed(world, known, nodes, k), k, slot)
  {
    if k > 0 {
      var before, p := Filed(world, known, nodes, k - 1), k - 1;
      FiledIs(world, nodes, known, p, slot);
      FiledNext(world, nodes, known, before, FileNode(world, before, p, nodes[p]), p, slot);
    }
  }

  lemma {:induction false} FiledNext(
    world: World, nodes: seq<Node>, known: map<string, Binding>, before: map<string, Binding>, after: map<string, Binding>,
    p: nat, slot: string)
    requires p < |nodes| && FiledSays(world, nodes, known, before, p, slot) && after == FileNode(world, before, p, nodes[p])
    ensures FiledSays(world, nodes, known, after, p + 1, slot)
  {
    if nodes[p].WorkerNode? {
      KeyIs(world, p, nodes[p].worker);
      if Speaks(world, nodes, p, slot) {
        SpeaksAt(world, nodes, before, p, slot);
        assert p < p + 1 && Speaks(world, nodes, p, slot);
      }
    }
  }

  lemma {:induction false} KeyIs(world: World, i: nat, w: Worker)
    ensures BindingKey(world, i, w) == SlotKey(world, i, w)
  {
  }

  lemma {:induction false} SpeaksAt(world: World, nodes: seq<Node>, before: map<string, Binding>, p: nat, slot: string)
    requires Speaks(world, nodes, p, slot)
    ensures var t := FileNode(world, before, p, nodes[p]);
      && slot in t && (slot in before ==> t[slot] == before[slot])
      && (slot !in before ==> t[slot].slot == slot && Describes(t[slot], nodes[p].worker))
  {
    KeyIs(world, p, nodes[p].worker);
  }

  lemma {:induction false} FirstSpeaker(world: World, nodes: seq<Node>, i: int, slot: string) returns (f: int)
    requires Speaks(world, nodes, i, slot)
    ensures 0 <= f <= i && FirstSpeaks(world, nodes, f, slot)
    decreases i
  {
    f := i;
    if exists j :: 0 <= j < i && Speaks(world, nodes, j, slot) {
      var j :| 0 <= j < i && Speaks(world, nodes, j, slot);
      f := FirstSpeaker(world, nodes, j, slot);
    }
  }

  /** The binding is listed: its slot is carried, and it was known before or is what the first worker for its slot says. */
  ghost predicate Belongs(world: World, a: Authoring, b: Binding) {
    && Carried(world, a, b.slot)
    && (b in a.bindings.list ||
        ((forall other :: other in a.bindings.list ==> other.slot != b.slot) &&
         exists i :: FirstSpeaks(world, a.workflow.nodes, i, b.slot) && Describes(b, a.workflow.nodes[i].worker)))
  }

  lemma {:induction false} CarriedIff(world: World, a: Authoring, slot: string)
    ensures slot in ActiveSlots(MigratedNodes(world, a.workflow.nodes)) <==> Carried(world, a, slot)
  {
    var nodes := Migrated(world, a).workflow.nodes;
    assert nodes == MigratedNodes(world, a.workflow.nodes);
  }

  lemma {:induction false} KeptIff(world: World, a: Authoring, b: Binding)
    requires UniqueSlots(a.bindings.list)
    ensures (b.slot in Kept(world, a) && Kept(world, a)[b.slot] == b) <==> Belongs(world, a, b)
  {
    var list, nodes := a.bindings.list, a.workflow.nodes;
    var known := BySlot(list, |list|);
    BySlotKeyed(list, |list|);
    BySlotAt(list, |list|);
    CarriedIff(world, a, b.slot);
    FiledIs(world, nodes, known, |nodes|, b.slot);
    if b.slot in known {
      var i :| 0 <= i < |list| && list[i].slot == b.slot;
      assert list[i] in list;
      if b in list {
        var j :| 0 <= j < |list| && list[j] == b;
      }
    } else {
      UnknownKept(world, a, b, known);
    }
  }

  lemma {:induction false} UnknownKept(world: World, a: Authoring, b: Binding, known: map<string, Binding>)
    requires UniqueSlots(a.bindings.list) && known == BySlot(a.bindings.list, |a.bindings.list|) && b.slot !in known
    requires FiledSays(world, a.workflow.nodes, known, Filed(world, known, a.workflow.nodes, |a.workflow.nodes|), |a.workflow.nodes|, b.slot)
    requires b.slot in ActiveSlots(MigratedNodes(world, a.workflow.nodes)) <==> Carried(world, a, b.slot)
    requires forall i :: 0 <= i < |a.bindings.list| ==> a.bindings.list[i].slot in known
    ensures (b.slot in Kept(world, a) && Kept(world, a)[b.slot] == b) <==> Belongs(world, a, b)
  {
    var nodes := a.workflow.nodes;
    var t := Filed(world, known, nodes, |nodes|);
    forall other | other in a.bindings.list ensures other.slot != b.slot {
      var i :| 0 <= i < |a.bindings.list| && a.bindings.list[i] == other;
    }
    if b.slot in t {
      var i :| i < |nodes| && Speaks(world, nodes, i, b.slot);
      var f := FirstSpeaker(world, nodes, i, b.slot);
      assert Describes(t[b.slot], nodes[f].worker) && t[b.slot].slot == b.slot;
      assert Describes(b, nodes[f].worker) ==> b == t[b.slot];
      forall g | FirstSpeaks(world, nodes, g, b.slot) ensures g == f {
        assert g < f || g == f || f < g;
      }
    }
  }

  /** After the migration the list is sorted by slot and holds exactly the bindings that belong there. */
  lemma {:induction false} BindingsAfterMigration(world: World, a: Authoring)
    requires UniqueSlots(a.bindings.list)
    ensures var list := Migrated(world, a).bindings.list;
      && (forall p, q :: 0 <= p < q < |list| ==> Less(list[p].slot, list[q].slot))
      && forall b :: b in list <==> Belongs(world, a, b)
  {
    var list, kept := Migrated(world, a).bindings.list, Kept(world, a);
    KeptKeyed(world, a);
    ListedFacts(kept);
    forall b ensures b in list <==> Belongs(world, a, b) {
      KeptIff(world, a, b);
      ListedIff(kept, b);
    }
  }

  lemma {:induction false} ListedIff(t: map<string, Binding>, b: Binding)
    requires Keyed(t)
    ensures b in Listed(t) <==> b.slot in t && t[b.slot] == b
  {
    var list, keys := Listed(t), SortedKeys(t.Keys);
    ListedFacts(t);
    if b.slot in t && t[b.slot] == b {
      assert b.slot in keys;
      var i :| 0 <= i < |keys| && keys[i] == b.slot;
      assert list[i] == b;
    }
    if b in list {
      var i :| 0 <= i < |list| && list[i] == b;
      assert keys[i] in keys;
    }
  }

  /** The revision of the bindings goes up by one, up to the machine word, exactly if the list changes. */
  lemma {:induction false} RevisionAfterMigration(world: World, a: Authoring)
    ensures var before, after := a.bindings, Migrated(world, a).bindings;
      after.bindingRevision ==
      (if after.list == before.list || before.bindingRevision >= 0xFFFF_FFFF_FFFF_FFFF then before.bindingRevision
       else before.bindingRevision + 1)
  {
  }
}
